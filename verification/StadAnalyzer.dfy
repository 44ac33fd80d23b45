/** Building the models of a registry from collected types, and linking each member of a model to
    the model of its type. */
module StadAnalyzers {
  import opened Wrappers
  import opened StadOrders
  import opened TypeCollectors

  class MemberDefinition {
    const typ: string
    const name: string
    var model: StadModel?

    constructor (typ: string, name: string)
      ensures this.typ == typ && this.name == name && model == null
    {
      this.typ, this.name, model := typ, name, null;
    }

    method SetModel(model: StadModel?)
      modifies this
      ensures this.model == model
    {
      this.model := model;
    }
  }

  class StadModel {
    const typ: string
    const members: seq<MemberDefinition>

    constructor (typ: string, members: seq<MemberDefinition>)
      ensures this.typ == typ && this.members == members
    {
      this.typ, this.members := typ, members;
    }
  }

  /** The definitions of the members of a type, in their order. */
  predicate Defines(members: seq<MemberDefinition>, refs: seq<MemberRef>) {
    && |members| == |refs|
    && forall i | 0 <= i < |refs| :: members[i].typ == refs[i].typ && members[i].name == refs[i].name
  }

  predicate Exists(models: seq<StadModel>, typ: string) { exists m | m in models :: m.typ == typ }

  /** The first model of a type, null if there is none. */
  function First(models: seq<StadModel>, typ: string): (r: StadModel?)
    ensures r == null <==> forall i | 0 <= i < |models| :: models[i].typ != typ
    ensures r != null ==>
              exists i | 0 <= i < |models| :: models[i] == r && models[i].typ == typ && forall j | 0 <= j < i :: models[j].typ != typ
  {
    if models == [] then null
    else if models[0].typ == typ then models[0]
    else
      assert models == [models[0]] + models[1..];
      var r := First(models[1..], typ);
      assert r != null ==> exists i | 0 <= i < |models| ::
        models[i] == r && models[i].typ == typ && forall j | 0 <= j < i :: models[j].typ != typ by {
        if r != null {
          var i :| 0 <= i < |models[1..]| && models[1..][i] == r && r.typ == typ && forall j | 0 <= j < i :: models[1..][j].typ != typ;
          assert models[i + 1] == r;
          assert forall j | 0 <= j < i + 1 :: models[j].typ != typ;
        }
      }
      r
  }

  class AnalyzeContext {
    const objects: seq<Info>
    const generics: seq<Info>
    var allModels: seq<StadModel>

    constructor (objects: seq<Info>, generics: seq<Info>)
      ensures this.objects == objects && this.generics == generics && allModels == []
    {
      this.objects, this.generics, allModels := objects, generics, [];
    }

    function InfoFor(typ: string): Option<Info> { Lookup(objects, generics, typ) }

    ghost predicate Built()
      reads this
    {
      AllBuilt(objects, generics, allModels)
    }

    function Collection(): Table { Table(objects, generics) }

    ghost function Definitions(): set<MemberDefinition>
      reads this
    {
      DefinitionsOf(allModels)
    }

    /** `MakeStadModel`: first the models of the members' types that are still missing, then this one. It may
        be called exactly when it ends, within some depth of calls. */
    method MakeStadModel(info: Info, ghost fuel: nat) returns (model: StadModel)
      requires InfoFor(info.fullName) == Some(info) && Built()
      requires Build(Collection(), fuel, TypesOf(allModels), info).Some?
      modifies this
      ensures Built() && old(allModels) < allModels
      ensures Build(Collection(), fuel, TypesOf(old(allModels)), info) == Some(TypesOf(allModels))
      ensures forall d | d in Definitions() - old(Definitions()) :: fresh(d)
      ensures model == allModels[|allModels| - 1] && model.typ == info.fullName
      decreases fuel
    {
      hide Lookup, Exists, Defines, AllBuilt, DefinitionsOf, Made, BuildMembers, TypesOf;
      var definitions: seq<MemberDefinition> := [];
      var k := 0;
      assert info.members[..|info.members|] == info.members;
      DefinesNothing();
      MadeNothing(objects, generics, allModels);
      NoMembers(Collection(), fuel - 1, TypesOf(allModels), info.members);
      ghost var known, start := Definitions(), TypesOf(allModels);
      while k < |info.members|
        invariant k <= |info.members| && Built() && old(allModels) <= allModels
        invariant Defines(definitions, info.members[..k]) && forall d | d in definitions :: fresh(d)
        invariant Made(objects, generics, allModels, info.members[..k])
        invariant BuildMembers(Collection(), fuel - 1, start, info.members[..k]) == Some(TypesOf(allModels))
        invariant forall d | d in Definitions() - known :: fresh(d)
      {
        var each := info.members[k];
        var definition := new MemberDefinition(each.typ, each.name);
        DefinesSnoc(definitions, info.members, k, definition);
        definitions := definitions + [definition];
        ghost var before := allModels;
        NextMember(Collection(), fuel - 1, start, info.members, k);
        ExistsTyped(allModels, each.typ);
        if !Exists(allModels, each.typ) {
          var memberInfo := InfoFor(each.typ);
          if memberInfo.Some? {
            LookupName(objects, generics, each.typ);
            ghost var knownBefore := Definitions();
            var added := MakeStadModel(memberInfo.value, fuel - 1);
            assert Definitions() - known <= (Definitions() - knownBefore) + (knownBefore - known);
            LastExists(allModels, added);
          }
        }
        MadeMore(objects, generics, before, allModels, info.members, k);
        k := k + 1;
      }
      model := new StadModel(info.fullName, definitions);
      ghost var others := Definitions();
      BuiltSnoc(objects, generics, allModels, model, info);
      TypesSnoc(allModels, model);
      allModels := allModels + [model];
      assert Definitions() == others + set d | d in model.members;
      forall d | d in Definitions() - old(Definitions())
        ensures fresh(d)
      {
        if d in others {
          assert d in others - known;
        } else {
          assert d in definitions;
        }
      }
    }

    /** Give every member of every model the first model of its type. */
    method LinkAll()
      modifies Definitions()
      ensures Linked()
      ensures forall d | d in Definitions() && d.model == null :: forall i | 0 <= i < |allModels| :: allModels[i].typ != d.typ
      ensures forall d | d in Definitions() && d.model != null ::
        exists i | 0 <= i < |allModels| ::
          allModels[i] == d.model && allModels[i].typ == d.typ && forall j | 0 <= j < i :: allModels[j].typ != d.typ
    {
      hide First, Exists;
      ghost var done: set<MemberDefinition> := {};
      var i := 0;
      while i < |allModels|
        invariant i <= |allModels|
        invariant done == DefinitionsOf(allModels[..i])
        invariant forall d | d in done :: d.model == First(allModels, d.typ)
      {
        ghost var before := done;
        var members := allModels[i].members;
        var j := 0;
        while j < |members|
          invariant j <= |members| && before <= done <= before + set d | d in members
          invariant forall k | 0 <= k < j :: members[k] in done
          invariant forall d | d in done :: d.model == First(allModels, d.typ)
        {
          var definition := members[j];
          assert allModels[i] in allModels && definition in allModels[i].members;
          var memberModel := First(allModels, definition.typ);
          definition.SetModel(memberModel);
          done := done + {definition};
          j := j + 1;
        }
        assert allModels[..i + 1] == allModels[..i] + [allModels[i]];
        DefinitionsSnoc(allModels[..i], allModels[i]);
        i := i + 1;
      }
      assert allModels[..i] == allModels;
    }

    /** Every member has the first model of its type. */
    ghost predicate Linked()
      reads this, Definitions()
    {
      forall d | d in Definitions() :: d.model == First(allModels, d.typ)
    }

    /** In built and linked models, a member has a model, of its own type, exactly when its type was
        collected. */
    lemma LinkedToOwnType(d: MemberDefinition)
      requires Built() && Linked() && d in Definitions()
      ensures d.model != null <==> InfoFor(d.typ).Some?
      ensures d.model != null ==> d.model.typ == d.typ && d.model in allModels
    {
      hide Defines, Lookup;
      var m :| m in allModels && d in m.members;
      var i :| 0 <= i < |allModels| && allModels[i] == m;
      if d.model != null {
        var k :| 0 <= k < |allModels| && allModels[k] == d.model;
        assert Lookup(objects, generics, allModels[k].typ).Some?;
      }
      if InfoFor(d.typ).Some? {
        MadeFor(objects, generics, allModels, i, d);
      }
    }

    /** `MakeDataSetModel`. It fails at the first member whose type was not collected; otherwise the
        models of the members that are not ignored go to one of two lists, and all is linked. It may be
        called exactly when it ends. */
    method MakeDataSetModel(info: Info, ghost fuel: nat) returns (result: DataSetResult)
      requires Built()
      requires BuildSelected(Collection(), fuel, TypesOf(allModels), Found(Collection(), info.members)).Some?
      modifies this, Definitions()
      ensures Built() && old(allModels) <= allModels
      ensures BuildSelected(Collection(), fuel, TypesOf(old(allModels)), Found(Collection(), info.members)) ==
              Some(TypesOf(allModels))
      ensures result.Created? <==> forall m | m in info.members :: InfoFor(m.typ).Some?
      ensures result.Created? ==>
                && Linked() && result.name == info.fullName
                && TypesOf(result.listModels) == Selected(objects, generics, info.members, true)
                && TypesOf(result.singleModels) == Selected(objects, generics, info.members, false)
      ensures result.Created? ==> forall d | d in Definitions() && d.model == null ::
        forall i | 0 <= i < |allModels| :: allModels[i].typ != d.typ
      ensures result.Created? ==> forall d | d in Definitions() && d.model != null ::
        exists i | 0 <= i < |allModels| ::
          allModels[i] == d.model && allModels[i].typ == d.typ && forall j | 0 <= j < i :: allModels[j].typ != d.typ
    {
      hide Lookup, AllBuilt, Selected, BuildSelected, Build, TypesOf, Contains, Exists, First, DefinitionsOf;
      ghost var known, start, found := Definitions(), TypesOf(allModels), Found(Collection(), info.members);
      var lists: seq<StadModel>, singles: seq<StadModel> := [], [];
      var k := 0;
      SelectedNothing(objects, generics);
      NoTypes();
      NoneSelected(Collection(), fuel, start, found);
      assert info.members[..|info.members|] == info.members;
      while k < |info.members|
        invariant k <= |info.members| && Built() && old(allModels) <= allModels
        invariant k <= |found| && BuildSelected(Collection(), fuel, start, found[..k]) == Some(TypesOf(allModels))
        invariant forall i | 0 <= i < k :: InfoFor(info.members[i].typ).Some?
        invariant forall d | d in Definitions() - known :: fresh(d)
        invariant TypesOf(lists) == Selected(objects, generics, info.members[..k], true)
        invariant TypesOf(singles) == Selected(objects, generics, info.members[..k], false)
      {
        var member := info.members[k];
        var memberInfo := InfoFor(member.typ);
        FoundStops(Collection(), info.members, k);
        if memberInfo.None? {
          assert member in info.members;
          assert found[..k] == found;
          return MemberNotFound(member.typ);
        }
        SelectedSnoc(objects, generics, info.members, k);
        NextSelected(Collection(), fuel, start, found, k);
        if !memberInfo.value.ignored {
          ghost var before := Definitions();
          LookupName(objects, generics, member.typ);
          var model := MakeStadModel(memberInfo.value, fuel);
          assert Definitions() - known <= (Definitions() - before) + (before - known);
          if Contains(model.typ, "StadKeyValueCollection") {
            TypesSnoc(lists, model);
            lists := lists + [model];
          } else {
            TypesSnoc(singles, model);
            singles := singles + [model];
          }
        }
        k := k + 1;
      }
      assert found[..k] == found;
      assert forall d | d in Definitions() :: d in known || d in Definitions() - known;
      LinkAll();
      result := Created(info.fullName, lists, singles);
    }
  }

  lemma NoTypes()
    ensures TypesOf([]) == []
  {
  }

  lemma TypesSnoc(models: seq<StadModel>, m: StadModel)
    ensures TypesOf(models + [m]) == TypesOf(models) + [m.typ]
  {
  }

  lemma ExistsTyped(models: seq<StadModel>, typ: string)
    ensures Exists(models, typ) <==> typ in TypesOf(models)
  {
    if typ in TypesOf(models) {
      var i :| 0 <= i < |models| && TypesOf(models)[i] == typ;
      assert models[i] in models;
    }
    if m :| m in models && m.typ == typ {
      var i :| 0 <= i < |models| && models[i] == m;
      assert TypesOf(models)[i] == typ;
    }
  }

  lemma NoMembers(t: Table, fuel: nat, models: seq<string>, refs: seq<MemberRef>)
    ensures BuildMembers(t, fuel, models, refs[..0]) == Some(models)
  {
  }

  /** One more member of a type whose model is made. */
  lemma NextMember(t: Table, fuel: nat, models: seq<string>, refs: seq<MemberRef>, k: nat)
    requires BuildMembers(t, fuel, models, refs).Some? && k < |refs|
    requires BuildMembers(t, fuel, models, refs[..k]).Some?
    ensures var r := BuildMembers(t, fuel, models, refs[..k]).value;
            var typ := refs[k].typ;
            var next := if typ in r || t.InfoFor(typ).None? then Some(r) else Build(t, fuel, r, t.InfoFor(typ).value);
            BuildMembers(t, fuel, models, refs[..k + 1]) == next && next.Some?
  {
    hide Build, Table.InfoFor;
    PrefixBuilt(t, fuel, models, refs, k + 1);
    assert refs[..k + 1][..k] == refs[..k];
  }

  lemma NoneSelected(t: Table, fuel: nat, models: seq<string>, refs: seq<MemberRef>)
    ensures BuildSelected(t, fuel, models, refs[..0]) == Some(models)
  {
  }

  lemma NextSelected(t: Table, fuel: nat, models: seq<string>, refs: seq<MemberRef>, k: nat)
    requires BuildSelected(t, fuel, models, refs).Some? && k < |refs|
    requires BuildSelected(t, fuel, models, refs[..k]).Some?
    ensures var r := BuildSelected(t, fuel, models, refs[..k]).value;
            var next := if Picked(t, refs[k]) then Build(t, fuel, r, t.InfoFor(refs[k].typ).value) else Some(r);
            BuildSelected(t, fuel, models, refs[..k + 1]) == next && next.Some?
  {
    hide Build, Picked;
    PrefixSelected(t, fuel, models, refs, k + 1);
    assert refs[..k + 1][..k] == refs[..k];
  }

  lemma FoundStops(t: Table, refs: seq<MemberRef>, k: nat)
    requires k < |refs| && k <= |Found(t, refs)|
    ensures if t.InfoFor(refs[k].typ).Some? then k < |Found(t, refs)| && Found(t, refs)[k] == refs[k]
            else k == |Found(t, refs)|
  {
    hide Table.InfoFor;
    if k < |Found(t, refs)| {
      assert Found(t, refs)[k] in Found(t, refs);
    }
  }

  datatype DataSetResult =
    | Created(name: string, listModels: seq<StadModel>, singleModels: seq<StadModel>)
    | MemberNotFound(typ: string)

  function TypesOf(models: seq<StadModel>): seq<string> {
    seq(|models|, i requires 0 <= i < |models| => models[i].typ)
  }

  predicate Contains(s: string, part: string) {
    exists i | 0 <= i <= |s| :: part <= s[i..]
  }

  /** The types of the members that are not ignored, and are lists or not. */
  function Selected(objects: seq<Info>, generics: seq<Info>, refs: seq<MemberRef>, lists: bool): seq<string> {
    if refs == [] then []
    else
      var last := refs[|refs| - 1];
      var info := Lookup(objects, generics, last.typ);
      Selected(objects, generics, refs[..|refs| - 1], lists) +
      if info.Some? && !info.value.ignored && Contains(last.typ, "StadKeyValueCollection") == lists then [last.typ] else []
  }

  /** Which members are selected, one after the other: of the members whose type is collected and not to be
      ignored, those whose type's name has "StadKeyValueCollection" in it are lists. */
  lemma SelectedMember(objects: seq<Info>, generics: seq<Info>, refs: seq<MemberRef>, m: MemberRef)
    ensures var info := Lookup(objects, generics, m.typ);
            var isList := exists a, b :: m.typ == a + "StadKeyValueCollection" + b;
            && Selected(objects, generics, [], true) == Selected(objects, generics, [], false) == []
            && Selected(objects, generics, refs + [m], true) ==
               Selected(objects, generics, refs, true) + (if info.Some? && !info.value.ignored && isList then [m.typ] else [])
            && Selected(objects, generics, refs + [m], false) ==
               Selected(objects, generics, refs, false) + (if info.Some? && !info.value.ignored && !isList then [m.typ] else [])
  {
    hide Lookup, Contains;
    ContainsPart(m.typ, "StadKeyValueCollection");
    assert (refs + [m])[..|refs|] == refs;
  }

  lemma ContainsPart(s: string, part: string)
    ensures Contains(s, part) <==> exists a, b :: s == a + part + b
  {
    if i :| 0 <= i <= |s| && part <= s[i..] {
      assert s == s[..i] + part + s[i..][|part|..];
    }
    if a, b :| s == a + part + b {
      assert s[|a|..] == part + b;
    }
  }

  lemma SelectedNothing(objects: seq<Info>, generics: seq<Info>)
    ensures Selected(objects, generics, [], true) == [] && Selected(objects, generics, [], false) == []
  {
  }

  lemma SelectedSnoc(objects: seq<Info>, generics: seq<Info>, refs: seq<MemberRef>, k: nat)
    requires k < |refs|
    ensures forall lists :: Selected(objects, generics, refs[..k + 1], lists) ==
              var info := Lookup(objects, generics, refs[k].typ);
              Selected(objects, generics, refs[..k], lists) +
              if info.Some? && !info.value.ignored && Contains(refs[k].typ, "StadKeyValueCollection") == lists then
                [refs[k].typ]
              else []
  {
    assert refs[..k + 1][..k] == refs[..k];
  }

  lemma LookupName(objects: seq<Info>, generics: seq<Info>, typ: string)
    requires Lookup(objects, generics, typ).Some?
    ensures Lookup(objects, generics, typ).value.fullName == typ
  {
  }

  lemma DefinitionsSnoc(models: seq<StadModel>, m: StadModel)
    ensures DefinitionsOf(models + [m]) == DefinitionsOf(models) + set d | d in m.members
  {
  }

  lemma MadeFor(objects: seq<Info>, generics: seq<Info>, models: seq<StadModel>, i: nat, d: MemberDefinition)
    requires AllBuilt(objects, generics, models) && i < |models| && d in models[i].members
    requires Lookup(objects, generics, d.typ).Some?
    ensures Exists(models, d.typ)
  {
    var info := Lookup(objects, generics, models[i].typ).value;
    assert Defines(models[i].members, info.members) && Made(objects, generics, models[..i], info.members);
    var k :| 0 <= k < |models[i].members| && models[i].members[k] == d;
    assert Exists(models[..i], info.members[k].typ);
    ExistsMore(models[..i], models, d.typ);
  }

  /** Every model is of a collected type, has the members of that type, and comes after the models
      of its members' types. */
  ghost predicate AllBuilt(objects: seq<Info>, generics: seq<Info>, models: seq<StadModel>) {
    forall i | 0 <= i < |models| ::
      var info := Lookup(objects, generics, models[i].typ);
      && info.Some? && Defines(models[i].members, info.value.members)
      && Made(objects, generics, models[..i], info.value.members)
  }

  /** The members' types, as far as they are collected, have models. */
  predicate Made(objects: seq<Info>, generics: seq<Info>, models: seq<StadModel>, refs: seq<MemberRef>) {
    forall i | 0 <= i < |refs| :: Lookup(objects, generics, refs[i].typ).Some? ==> Exists(models, refs[i].typ)
  }

  ghost function DefinitionsOf(models: seq<StadModel>): set<MemberDefinition> {
    set m, d | m in models && d in m.members :: d
  }

  lemma DefinesNothing()
    ensures Defines([], [])
  {
  }

  lemma MadeNothing(objects: seq<Info>, generics: seq<Info>, models: seq<StadModel>)
    ensures Made(objects, generics, models, [])
  {
  }

  lemma DefinesSnoc(members: seq<MemberDefinition>, refs: seq<MemberRef>, k: nat, d: MemberDefinition)
    requires k < |refs| && Defines(members, refs[..k]) && d.typ == refs[k].typ && d.name == refs[k].name
    ensures Defines(members + [d], refs[..k + 1])
  {
  }

  lemma LastExists(models: seq<StadModel>, m: StadModel)
    requires models != [] && models[|models| - 1] == m
    ensures Exists(models, m.typ)
  {
    assert m in models;
  }

  lemma ExistsMore(a: seq<StadModel>, b: seq<StadModel>, typ: string)
    requires a <= b && Exists(a, typ)
    ensures Exists(b, typ)
  {
    var m :| m in a && m.typ == typ;
    assert m in b;
  }

  lemma MadeMore(objects: seq<Info>, generics: seq<Info>, a: seq<StadModel>, b: seq<StadModel>, refs: seq<MemberRef>, k: nat)
    requires k < |refs| && a <= b && Made(objects, generics, a, refs[..k])
    requires Lookup(objects, generics, refs[k].typ).Some? ==> Exists(b, refs[k].typ)
    ensures Made(objects, generics, b, refs[..k + 1])
  {
    hide Exists, Lookup;
    forall i | 0 <= i < k + 1 && Lookup(objects, generics, refs[i].typ).Some?
      ensures Exists(b, refs[i].typ)
    {
      if i < k {
        assert refs[..k][i] == refs[i];
        ExistsMore(a, b, refs[i].typ);
      }
    }
  }

  lemma BuiltSnoc(objects: seq<Info>, generics: seq<Info>, models: seq<StadModel>, m: StadModel, info: Info)
    requires AllBuilt(objects, generics, models) && Lookup(objects, generics, m.typ) == Some(info)
    requires Defines(m.members, info.members) && Made(objects, generics, models, info.members)
    ensures AllBuilt(objects, generics, models + [m])
    ensures DefinitionsOf(models + [m]) == DefinitionsOf(models) + set d | d in m.members
  {
    hide Made, Defines, Lookup;
    var longer := models + [m];
    forall i | 0 <= i < |longer|
      ensures longer[..i] == models[..i]
    {
    }
  }

  // ----- on what was collected

  function NameOf(u: Universe, t: TypeId): string { if t < |u| then u[t].fullName else "" }

  /** An entry of the collector, with types by name. */
  function Named(u: Universe, e: TypeInfo, ignored: string -> bool): Info {
    Info(e.fullName, ignored(e.fullName),
         seq(|e.members|, i requires 0 <= i < |e.members| => MemberRef(NameOf(u, e.members[i].typ), e.members[i].name)))
  }

  function AllNamed(u: Universe, list: seq<TypeInfo>, ignored: string -> bool): seq<Info> {
    seq(|list|, i requires 0 <= i < |list| => Named(u, list[i], ignored))
  }

  /** What a finished collection is. */
  ghost predicate Collected(u: Universe, targets: seq<TypeId>, w: Workspace) {
    && Closed(u) && (forall x :: x in w.visited <==> FromTargets(u, targets, x))
    && (forall x | x in w.visited :: x < |u|)
    && multiset(w.objects) == multiset(Expected(u, w.visited, Plain))
    && multiset(w.generics) == multiset(Expected(u, w.visited, Generic))
  }

  /** A list of entries names a visited type exactly when it is the list for its kind. */
  lemma ListNames(u: Universe, visited: set<TypeId>, list: seq<TypeInfo>, kind: Shape, x: TypeId, ignored: string -> bool)
    requires multiset(list) == multiset(Expected(u, visited, kind)) && x in visited && x < |u|
    requires forall s, t | 0 <= s < |u| && 0 <= t < |u| && u[s].fullName == u[t].fullName :: s == t
    ensures Find(AllNamed(u, list, ignored), u[x].fullName).Some? <==> Kind(u, x) == kind
  {
    hide Kind, InfoOf;
    var names := AllNamed(u, list, ignored);
    NamesAre(u, list, ignored, u[x].fullName);
    EntriesAre(u, visited, list, kind);
    InfoNames(u);
    if Kind(u, x) == kind {
      assert InfoOf(u, x) in list;
    }
  }

  lemma InfoNames(u: Universe)
    ensures forall x | 0 <= x < |u| :: InfoOf(u, x).fullName == u[x].fullName
  {
  }

  /** The entries of a list, one by one. */
  lemma EntriesAre(u: Universe, visited: set<TypeId>, list: seq<TypeInfo>, kind: Shape)
    requires multiset(list) == multiset(Expected(u, visited, kind))
    ensures forall e | e in list :: exists x | x in visited && x < |u| && Kind(u, x) == kind :: e == InfoOf(u, x)
    ensures forall x | x in visited && x < |u| && Kind(u, x) == kind :: InfoOf(u, x) in list
  {
    forall e | e in list
      ensures exists x | x in visited && x < |u| && Kind(u, x) == kind :: e == InfoOf(u, x)
    {
      assert e in multiset(list);
    }
    forall x | x in visited && x < |u| && Kind(u, x) == kind
      ensures InfoOf(u, x) in list
    {
      assert InfoOf(u, x) in multiset(Expected(u, visited, kind));
    }
  }

  lemma NamesAre(u: Universe, list: seq<TypeInfo>, ignored: string -> bool, name: string)
    ensures Find(AllNamed(u, list, ignored), name).Some? <==> exists e | e in list :: e.fullName == name
  {
    var names := AllNamed(u, list, ignored);
    if e :| e in list && e.fullName == name {
      var i :| 0 <= i < |list| && list[i] == e;
      assert names[i] in names;
    }
    if Find(names, name).Some? {
      var i :| 0 <= i < |names| && names[i] == Find(names, name).value;
      assert list[i] in list;
    }
  }

  /** A member of a collected object is found by its type's name unless its type is an enumeration,
      was stopped by a gate, or is the special case. */
  lemma LookupFails(u: Universe, targets: seq<TypeId>, w: Workspace, ignored: string -> bool, e: TypeInfo, k: nat)
    requires Collected(u, targets, w) && e in w.objects && k < |e.members|
    requires forall s, t | 0 <= s < |u| && 0 <= t < |u| && u[s].fullName == u[t].fullName :: s == t
    ensures var x := e.members[k].typ;
            && x < |u|
            && (Lookup(AllNamed(u, w.objects, ignored), AllNamed(u, w.generics, ignored), u[x].fullName).None? <==>
                  Kind(u, x).Enumeration? || Kind(u, x).Stopped?)
  {
    hide Leads, Kind, Expected, FromTargets;
    var x := e.members[k].typ;
    MemberVisited(u, targets, w, e, k);
    ListNames(u, w.visited, w.objects, Plain, x, ignored);
    ListNames(u, w.visited, w.generics, Generic, x, ignored);
  }

  lemma MemberVisited(u: Universe, targets: seq<TypeId>, w: Workspace, e: TypeInfo, k: nat)
    requires Collected(u, targets, w) && e in w.objects && k < |e.members|
    ensures e.members[k].typ < |u| && e.members[k].typ in w.visited
  {
    hide FromTargets;
    assert e in multiset(w.objects);
    var t :| t in w.visited && t < |u| && Kind(u, t) == Plain && e == InfoOf(u, t);
    var m := KeptMembers(u, t)[k];
    assert m in KeptMembers(u, t) && e.members[k].typ == m.typ;
    KeptInTable(u, t, m);
    TargetsOn(u, targets, t, m.typ);
  }

  lemma KeptInTable(u: Universe, t: TypeId, m: Member)
    requires Closed(u) && t < |u| && m in KeptMembers(u, t)
    ensures m.typ < |u|
  {
    KeptIn(u[t].properties, m);
    KeptIn(u[t].fields, m);
    assert m in u[t].properties + u[t].fields;
  }

  lemma {:induction false} KeptIn(members: seq<Member>, m: Member)
    ensures m in Kept(members) ==> m in members
  {
    if members != [] {
      KeptIn(members[1..], m);
    }
  }
}
