/** The order in which models are built: the recursion of `MakeStadModel` on names alone, and exactly when
    it ends. */
module StadOrders {
  import opened Wrappers

  datatype MemberRef = MemberRef(typ: string, name: string)

  /** A collected type, by name. */
  datatype Info = Info(fullName: string, ignored: bool, members: seq<MemberRef>)

  /** `FirstOrDefault`, by full name. */
  function Find(list: seq<Info>, typ: string): (r: Option<Info>)
    ensures r.Some? ==> r.value in list && r.value.fullName == typ
    ensures r.None? <==> forall i | i in list :: i.fullName != typ
  {
    if list == [] then None else if list[0].fullName == typ then Some(list[0]) else Find(list[1..], typ)
  }

  /** `GetObjectInfo`: among the objects, else among the generic types. */
  function Lookup(objects: seq<Info>, generics: seq<Info>, typ: string): (r: Option<Info>)
    ensures r.None? <==> (forall i | i in objects + generics :: i.fullName != typ)
    ensures r.Some? ==> r.value.fullName == typ
    ensures (exists i | i in objects :: i.fullName == typ) ==> r.Some? && r.value in objects
    ensures r.Some? && !(exists i | i in objects :: i.fullName == typ) ==> r.value in generics
  {
    var first := Find(objects, typ);
    assert forall i :: i in objects + generics <==> i in objects || i in generics;
    if first.Some? then first else Find(generics, typ)
  }

  /** What was collected. */
  datatype Table = Table(objects: seq<Info>, generics: seq<Info>) {
    function InfoFor(typ: string): Option<Info> { Lookup(objects, generics, typ) }

    function Names(): set<string> { set i | i in objects + generics :: i.fullName }
  }

  // ----- the recursion

  /** The models after `MakeStadModel`, if it nests no deeper than `fuel` calls. */
  function Build(t: Table, fuel: nat, models: seq<string>, info: Info): Option<seq<string>>
    decreases fuel, 0
  {
    if fuel == 0 then None
    else
      var r := BuildMembers(t, fuel - 1, models, info.members);
      if r.None? then None else Some(r.value + [info.fullName])
  }

  function BuildMembers(t: Table, fuel: nat, models: seq<string>, refs: seq<MemberRef>): Option<seq<string>>
    decreases fuel, |refs|
  {
    if refs == [] then Some(models)
    else
      var r := BuildMembers(t, fuel, models, refs[..|refs| - 1]);
      if r.None? then None
      else
        var typ := refs[|refs| - 1].typ;
        if typ in r.value || t.InfoFor(typ).None? then r else Build(t, fuel, r.value, t.InfoFor(typ).value)
  }

  lemma {:induction false} PrefixBuilt(t: Table, fuel: nat, models: seq<string>, refs: seq<MemberRef>, k: nat)
    requires BuildMembers(t, fuel, models, refs).Some? && k <= |refs|
    ensures BuildMembers(t, fuel, models, refs[..k]).Some?
    decreases |refs|
  {
    if k == |refs| {
      assert refs[..k] == refs;
    } else {
      assert refs[..|refs| - 1][..k] == refs[..k];
      PrefixBuilt(t, fuel, models, refs[..|refs| - 1], k);
    }
  }

  // ----- cycles

  /** From a collected type to the collected type of one of its members that has no model yet. */
  predicate Steps(t: Table, models: seq<string>, x: string, y: string) {
    && t.InfoFor(x).Some? && t.InfoFor(y).Some? && y !in models
    && exists m | m in t.InfoFor(x).value.members :: m.typ == y
  }

  predicate IsPath(t: Table, models: seq<string>, p: seq<string>) {
    p != [] && forall k | 0 <= k < |p| - 1 :: Steps(t, models, p[k], p[k + 1])
  }

  /** The last type of a path has been there before. */
  predicate Returns(p: seq<string>) { p != [] && p[|p| - 1] in p[..|p| - 1] }

  /** A cycle can be reached from a type. */
  ghost predicate Cyclic(t: Table, models: seq<string>, typ: string) {
    exists p: seq<string> :: IsPath(t, models, p) && p[0] == typ && Returns(p)
  }

  // ----- if it ends, there is no cycle

  predicate ChildrenIn(t: Table, models: seq<string>, refs: seq<MemberRef>) {
    forall m | m in refs && t.InfoFor(m.typ).Some? :: m.typ in models
  }

  /** From the n-th on, every model comes after the models of its members' types. */
  predicate PostOrdered(t: Table, n: nat, models: seq<string>) {
    forall i | n <= i < |models| ::
      t.InfoFor(models[i]).Some? && ChildrenIn(t, models[..i], t.InfoFor(models[i]).value.members)
  }

  lemma {:induction false} BuildCloses(t: Table, fuel: nat, models: seq<string>, info: Info)
    requires Build(t, fuel, models, info).Some? && t.InfoFor(info.fullName) == Some(info)
    ensures var r := Build(t, fuel, models, info).value;
            models < r && r[|r| - 1] == info.fullName && PostOrdered(t, |models|, r)
    decreases fuel, 0
  {
    hide Table.InfoFor, ChildrenIn;
    MembersClose(t, fuel - 1, models, info.members);
    var before := BuildMembers(t, fuel - 1, models, info.members).value;
    var r := before + [info.fullName];
    forall i | |models| <= i < |r|
      ensures t.InfoFor(r[i]).Some? && ChildrenIn(t, r[..i], t.InfoFor(r[i]).value.members)
    {
      if i < |before| {
        assert r[..i] == before[..i];
      } else {
        assert r[..i] == before;
      }
    }
  }

  /** The members are built: every new model comes after the models of its members' types. */
  predicate Follow(t: Table, models: seq<string>, refs: seq<MemberRef>, r: seq<string>) {
    models <= r && PostOrdered(t, |models|, r) && ChildrenIn(t, r, refs)
  }

  lemma {:induction false} MembersClose(t: Table, fuel: nat, models: seq<string>, refs: seq<MemberRef>)
    requires BuildMembers(t, fuel, models, refs).Some?
    ensures Follow(t, models, refs, BuildMembers(t, fuel, models, refs).value)
    decreases fuel, |refs|
  {
    if refs != [] {
      hide Table.InfoFor, Follow, Build, PostOrdered;
      var init, last := refs[..|refs| - 1], refs[|refs| - 1];
      MembersClose(t, fuel, models, init);
      var before, r := BuildMembers(t, fuel, models, init).value, BuildMembers(t, fuel, models, refs).value;
      if last.typ in before || t.InfoFor(last.typ).None? {
        FollowNothing(t, models, init, before, last);
      } else {
        FoundByName(t, last.typ);
        BuildCloses(t, fuel, before, t.InfoFor(last.typ).value);
        FollowMore(t, models, init, before, r, last);
      }
      assert refs == init + [last];
    }
  }

  lemma FollowNothing(t: Table, models: seq<string>, refs: seq<MemberRef>, r: seq<string>, m: MemberRef)
    requires Follow(t, models, refs, r) && (m.typ in r || t.InfoFor(m.typ).None?)
    ensures Follow(t, models, refs + [m], r)
  {
    hide PostOrdered, Table.InfoFor;
    OneMoreChild(t, r, r, refs, m);
  }

  lemma FollowMore(t: Table, models: seq<string>, refs: seq<MemberRef>, a: seq<string>, b: seq<string>, m: MemberRef)
    requires Follow(t, models, refs, a) && a < b && b[|b| - 1] == m.typ && PostOrdered(t, |a|, b)
    ensures Follow(t, models, refs + [m], b)
  {
    hide PostOrdered, Table.InfoFor, ChildrenIn;
    ClosedOn(t, |models|, a, b);
    OneMoreChild(t, a, b, refs, m);
  }

  lemma FoundByName(t: Table, typ: string)
    requires t.InfoFor(typ).Some?
    ensures t.InfoFor(t.InfoFor(typ).value.fullName) == t.InfoFor(typ)
  {
  }

  lemma ClosedOn(t: Table, n: nat, a: seq<string>, b: seq<string>)
    requires a <= b && PostOrdered(t, n, a) && PostOrdered(t, |a|, b)
    ensures PostOrdered(t, n, b)
  {
    hide Table.InfoFor, ChildrenIn;
    forall i | n <= i < |a|
      ensures b[..i] == a[..i]
    {
    }
  }

  lemma OneMoreChild(t: Table, a: seq<string>, b: seq<string>, refs: seq<MemberRef>, m: MemberRef)
    requires a <= b && ChildrenIn(t, a, refs) && (t.InfoFor(m.typ).Some? ==> m.typ in b)
    ensures ChildrenIn(t, b, refs + [m])
  {
    hide Table.InfoFor;
    forall x | x in a
      ensures x in b
    {
      var i :| 0 <= i < |a| && a[i] == x;
      assert b[i] == x;
    }
  }

  /** Where a type is first. */
  function Position(models: seq<string>, x: string): (i: nat)
    requires x in models
    ensures i < |models| && models[i] == x && forall j | 0 <= j < i :: models[j] != x
  {
    if models[0] == x then 0
    else
      assert models == [models[0]] + models[1..];
      1 + Position(models[1..], x)
  }

  /** A step leads to an earlier model. */
  lemma StepDown(t: Table, models: seq<string>, r: seq<string>, x: string, y: string)
    requires models <= r && PostOrdered(t, |models|, r) && x in r && x !in models && Steps(t, models, x, y)
    ensures y in r && Position(r, y) < Position(r, x)
  {
    hide Table.InfoFor, Position;
    var i := Position(r, x);
    assert forall k | 0 <= k < |models| :: r[k] == models[k] && models[k] in models;
    assert |models| <= i;
    var m :| m in t.InfoFor(x).value.members && m.typ == y;
    assert y in r[..i];
    var j :| 0 <= j < i && r[j] == y;
  }

  lemma {:induction false} PathDown(t: Table, models: seq<string>, r: seq<string>, p: seq<string>)
    requires models <= r && PostOrdered(t, |models|, r) && IsPath(t, models, p) && p[0] in r && p[0] !in models
    ensures p[|p| - 1] in r && (|p| > 1 ==> Position(r, p[|p| - 1]) < Position(r, p[0]))
    decreases |p|
  {
    hide Steps, PostOrdered, Position;
    if |p| > 1 {
      var q := p[..|p| - 1];
      assert IsPath(t, models, q);
      PathDown(t, models, r, q);
      assert Steps(t, models, p[|p| - 2], p[|p| - 1]);
      if |p| > 2 {
        assert Steps(t, models, p[|p| - 3], p[|p| - 2]);
        StepFresh(t, models, p[|p| - 3], p[|p| - 2]);
      }
      StepDown(t, models, r, p[|p| - 2], p[|p| - 1]);
    }
  }

  lemma StepFresh(t: Table, models: seq<string>, x: string, y: string)
    requires Steps(t, models, x, y)
    ensures y !in models && t.InfoFor(y).Some?
  {
  }

  lemma PartOfPath(t: Table, models: seq<string>, p: seq<string>, i: nat)
    requires IsPath(t, models, p) && i < |p|
    ensures IsPath(t, models, p[i..])
  {
    hide Steps;
    var q := p[i..];
    forall k | 0 <= k < |q| - 1
      ensures Steps(t, models, q[k], q[k + 1])
    {
      assert Steps(t, models, p[i + k], p[i + k + 1]);
    }
  }

  /** No path returns to a model that has been built. */
  lemma NoReturn(t: Table, models: seq<string>, r: seq<string>, p: seq<string>)
    requires models <= r && PostOrdered(t, |models|, r) && IsPath(t, models, p) && p[|p| - 1] in r
    ensures !Returns(p)
  {
    hide Steps, PostOrdered, Position;
    if Returns(p) {
      var i :| 0 <= i < |p| - 1 && p[i] == p[|p| - 1];
      PartOfPath(t, models, p, i);
      assert Steps(t, models, p[|p| - 2], p[|p| - 1]);
      StepFresh(t, models, p[|p| - 2], p[|p| - 1]);
      PathDown(t, models, r, p[i..]);
    }
  }

  /** Every path from a type that has been built stays among the models. */
  lemma PathBuilt(t: Table, fuel: nat, models: seq<string>, info: Info, p: seq<string>)
    requires Build(t, fuel, models, info).Some? && t.InfoFor(info.fullName) == Some(info)
    requires IsPath(t, models, p) && p[0] == info.fullName
    ensures var r := Build(t, fuel, models, info).value;
            models <= r && PostOrdered(t, |models|, r) && p[|p| - 1] in r
  {
    hide Build, Position, Steps;
    BuildCloses(t, fuel, models, info);
    var r := Build(t, fuel, models, info).value;
    if |p| == 1 {
      assert r[|r| - 1] in r;
    } else {
      assert Steps(t, models, p[0], p[1]);
      FirstStep(t, models, r, info, p[1]);
      PartOfPath(t, models, p, 1);
      PathDown(t, models, r, p[1..]);
    }
  }

  lemma FirstStep(t: Table, models: seq<string>, r: seq<string>, info: Info, y: string)
    requires models < r && r[|r| - 1] == info.fullName && PostOrdered(t, |models|, r)
    requires t.InfoFor(info.fullName) == Some(info) && Steps(t, models, info.fullName, y)
    ensures y in r && y !in models
  {
    hide Table.InfoFor;
    var m :| m in info.members && m.typ == y;
    assert m.typ in r[..|r| - 1];
  }

  lemma EndedIsAcyclic(t: Table, fuel: nat, models: seq<string>, info: Info)
    requires Build(t, fuel, models, info).Some? && t.InfoFor(info.fullName) == Some(info)
    ensures !Cyclic(t, models, info.fullName)
  {
    hide Build, Steps, PostOrdered;
    if Cyclic(t, models, info.fullName) {
      var p: seq<string> :| IsPath(t, models, p) && p[0] == info.fullName && Returns(p);
      PathBuilt(t, fuel, models, info, p);
      NoReturn(t, models, Build(t, fuel, models, info).value, p);
    }
  }

  // ----- if there is no cycle, it ends

  function Elements(p: seq<string>): set<string> { set x | x in p }

  /** Fuel for all the types that are not on the path yet is enough. */
  lemma {:induction false} Suffices(t: Table, start: seq<string>, models: seq<string>, info: Info, path: seq<string>, fuel: nat)
    requires Elements(start) <= Elements(models) && t.InfoFor(info.fullName) == Some(info)
    requires IsPath(t, start, path) && path[|path| - 1] == info.fullName && !Cyclic(t, start, path[0])
    requires fuel > |t.Names() - Elements(path)|
    ensures Build(t, fuel, models, info).Some?
    decreases fuel, 0
  {
    assert info.members[..|info.members|] == info.members;
    MembersSuffice(t, start, models, info, |info.members|, path, fuel - 1);
  }

  lemma {:induction false} MembersSuffice(t: Table, start: seq<string>, models: seq<string>, info: Info, k: nat, path: seq<string>,
                                          fuel: nat)
    requires Elements(start) <= Elements(models) && t.InfoFor(info.fullName) == Some(info) && k <= |info.members|
    requires IsPath(t, start, path) && path[|path| - 1] == info.fullName && !Cyclic(t, start, path[0])
    requires fuel >= |t.Names() - Elements(path)|
    ensures BuildMembers(t, fuel, models, info.members[..k]).Some?
    decreases fuel, k + 1
  {
    if k > 0 {
      var refs := info.members[..k];
      assert refs[..k - 1] == info.members[..k - 1];
      MembersSuffice(t, start, models, info, k - 1, path, fuel);
      MembersClose(t, fuel, models, refs[..k - 1]);
      var r := BuildMembers(t, fuel, models, refs[..k - 1]).value;
      var y := refs[k - 1].typ;
      if y !in r && t.InfoFor(y).Some? {
        StillIn(models, r);
        NextStep(t, start, r, info, k - 1);
        Longer(t, start, path, y);
        FoundByName(t, y);
        hide Cyclic, IsPath, Table.Names, Table.InfoFor, Elements;
        Suffices(t, start, r, t.InfoFor(y).value, path + [y], fuel);
      }
    }
  }

  lemma NextStep(t: Table, start: seq<string>, models: seq<string>, info: Info, k: nat)
    requires Elements(start) <= Elements(models) && t.InfoFor(info.fullName) == Some(info) && k < |info.members|
    requires info.members[k].typ !in models && t.InfoFor(info.members[k].typ).Some?
    ensures Steps(t, start, info.fullName, info.members[k].typ)
  {
    hide Table.InfoFor;
    assert info.members[k] in info.members;
    assert info.members[k].typ !in Elements(start);
  }

  lemma ElementsSnoc(path: seq<string>, y: string)
    ensures Elements(path + [y]) == Elements(path) + {y}
  {
  }

  lemma StillIn(a: seq<string>, b: seq<string>)
    requires a <= b
    ensures Elements(a) <= Elements(b)
  {
    forall x | x in a
      ensures x in b
    {
      var i :| 0 <= i < |a| && a[i] == x;
      assert b[i] == x;
    }
  }

  /** A path without a cycle goes on to a type that is new to it. */
  lemma Longer(t: Table, start: seq<string>, path: seq<string>, y: string)
    requires IsPath(t, start, path) && !Cyclic(t, start, path[0])
    requires Steps(t, start, path[|path| - 1], y)
    ensures IsPath(t, start, path + [y]) && |t.Names() - Elements(path + [y])| < |t.Names() - Elements(path)|
  {
    var more := path + [y];
    forall k | 0 <= k < |more| - 1
      ensures Steps(t, start, more[k], more[k + 1])
    {
      if k < |path| - 1 {
        assert Steps(t, start, path[k], path[k + 1]);
      }
    }
    assert more[..|more| - 1] == path;
    if y in path {
      assert Returns(more);
    }
    InNames(t, y);
    var before, after := t.Names() - Elements(path), t.Names() - Elements(more);
    ElementsSnoc(path, y);
    FewerElements(after, before - {y});
  }

  lemma InNames(t: Table, y: string)
    requires t.InfoFor(y).Some?
    ensures y in t.Names()
  {
    var info := t.InfoFor(y).value;
    assert info in t.objects + t.generics;
  }

  lemma {:induction false} FewerElements(a: set<string>, b: set<string>)
    requires a <= b
    ensures |a| <= |b|
    decreases |a|
  {
    if a != {} {
      var x :| x in a;
      FewerElements(a - {x}, b - {x});
    }
  }

  /** The depth that is enough for every type of a table. */
  function Enough(t: Table): nat { |t.Names()| + 1 }

  lemma AcyclicEnds(t: Table, start: seq<string>, models: seq<string>, info: Info)
    requires Elements(start) <= Elements(models) && t.InfoFor(info.fullName) == Some(info)
    requires !Cyclic(t, start, info.fullName)
    ensures Build(t, Enough(t), models, info).Some?
  {
    hide Cyclic;
    FewerElements(t.Names() - Elements([info.fullName]), t.Names());
    Suffices(t, start, models, info, [info.fullName], Enough(t));
  }

  /** Building a model ends if and only if no cycle can be reached from its type, through collected member
      types that have no model yet. */
  lemma Ends(t: Table, models: seq<string>, info: Info)
    requires t.InfoFor(info.fullName) == Some(info)
    ensures (exists fuel: nat :: Build(t, fuel, models, info).Some?) <==> !Cyclic(t, models, info.fullName)
  {
    hide Build, Cyclic;
    if fuel: nat :| Build(t, fuel, models, info).Some? {
      EndedIsAcyclic(t, fuel, models, info);
    }
    if !Cyclic(t, models, info.fullName) {
      AcyclicEnds(t, models, models, info);
    }
  }

  /** A type with a member of its own type: no depth is enough; the type next to it is built at once. */
  lemma SelfReference(fuel: nat)
    ensures var leaf := Info("Leaf", false, []);
            var node := Info("Node", false, [MemberRef("Node", "Next")]);
            var t := Table([leaf, node], []);
            Build(t, fuel, [], node).None? && Build(t, 1, [], leaf) == Some(["Leaf"])
  {
    var leaf := Info("Leaf", false, []);
    var node := Info("Node", false, [MemberRef("Node", "Next")]);
    var t := Table([leaf, node], []);
    assert t.InfoFor("Node") == Some(node) by {
      assert Find([leaf, node][1..], "Node") == Some(node);
    }
    var p := ["Node", "Node"];
    assert node.members[0] in node.members;
    assert Steps(t, [], p[0], p[1]);
    assert IsPath(t, [], p) && p[1] == p[..1][0] && Returns(p);
    if Build(t, fuel, [], node).Some? {
      EndedIsAcyclic(t, fuel, [], node);
    }
    assert BuildMembers(t, 0, [], leaf.members) == Some([]);
    assert [] + ["Leaf"] == ["Leaf"];
  }

  // ----- the members of a data set

  /** A member whose model is made: its type was collected and is not ignored. */
  predicate Picked(t: Table, m: MemberRef) { t.InfoFor(m.typ).Some? && !t.InfoFor(m.typ).value.ignored }

  /** The models after the loop of `MakeDataSetModel`, if no member nests deeper than `fuel` calls. */
  function BuildSelected(t: Table, fuel: nat, models: seq<string>, refs: seq<MemberRef>): Option<seq<string>> {
    if refs == [] then Some(models)
    else
      var r := BuildSelected(t, fuel, models, refs[..|refs| - 1]);
      var m := refs[|refs| - 1];
      if r.None? || !Picked(t, m) then r else Build(t, fuel, r.value, t.InfoFor(m.typ).value)
  }

  lemma {:induction false} PrefixSelected(t: Table, fuel: nat, models: seq<string>, refs: seq<MemberRef>, k: nat)
    requires BuildSelected(t, fuel, models, refs).Some? && k <= |refs|
    ensures BuildSelected(t, fuel, models, refs[..k]).Some?
    decreases |refs|
  {
    hide Build;
    if k == |refs| {
      assert refs[..k] == refs;
    } else {
      assert refs[..|refs| - 1][..k] == refs[..k];
      PrefixSelected(t, fuel, models, refs[..|refs| - 1], k);
    }
  }

  lemma {:induction false} SelectedCloses(t: Table, fuel: nat, models: seq<string>, refs: seq<MemberRef>)
    requires BuildSelected(t, fuel, models, refs).Some?
    ensures var r := BuildSelected(t, fuel, models, refs).value;
            models <= r && PostOrdered(t, |models|, r)
    decreases |refs|
  {
    hide Build, Table.InfoFor, ChildrenIn;
    if refs != [] {
      hide PostOrdered;
      var before, m := BuildSelected(t, fuel, models, refs[..|refs| - 1]).value, refs[|refs| - 1];
      SelectedCloses(t, fuel, models, refs[..|refs| - 1]);
      if Picked(t, m) {
        FoundByName(t, m.typ);
        BuildCloses(t, fuel, before, t.InfoFor(m.typ).value);
        ClosedOn(t, |models|, before, BuildSelected(t, fuel, models, refs).value);
      }
    }
  }

  /** What is built does not break a cycle. */
  lemma CyclicStays(t: Table, models: seq<string>, r: seq<string>, typ: string)
    requires models <= r && PostOrdered(t, |models|, r) && Cyclic(t, models, typ)
    ensures Cyclic(t, r, typ)
  {
    hide PostOrdered, Steps;
    var p: seq<string> :| IsPath(t, models, p) && p[0] == typ && Returns(p);
    forall k | 0 <= k < |p| - 1
      ensures Steps(t, r, p[k], p[k + 1])
    {
      assert Steps(t, models, p[k], p[k + 1]);
      StepFresh(t, models, p[k], p[k + 1]);
      if p[k + 1] in r {
        PartOfPath(t, models, p, k + 1);
        PathDown(t, models, r, p[k + 1..]);
        NoReturn(t, models, r, p);
      }
      StepLater(t, models, r, p[k], p[k + 1]);
    }
    assert IsPath(t, r, p);
  }

  lemma StepLater(t: Table, models: seq<string>, r: seq<string>, x: string, y: string)
    requires Steps(t, models, x, y) && y !in r
    ensures Steps(t, r, x, y)
  {
  }

  lemma {:induction false} SelectedAcyclic(t: Table, fuel: nat, models: seq<string>, refs: seq<MemberRef>, k: nat)
    requires BuildSelected(t, fuel, models, refs).Some? && k < |refs| && Picked(t, refs[k])
    ensures !Cyclic(t, models, refs[k].typ)
  {
    hide Build, Cyclic, PostOrdered, Table.InfoFor;
    PrefixSelected(t, fuel, models, refs, k + 1);
    assert refs[..k + 1][..k] == refs[..k];
    var before := BuildSelected(t, fuel, models, refs[..k]).value;
    SelectedCloses(t, fuel, models, refs[..k]);
    FoundByName(t, refs[k].typ);
    NameFound(t, refs[k].typ);
    EndedIsAcyclic(t, fuel, before, t.InfoFor(refs[k].typ).value);
    if Cyclic(t, models, refs[k].typ) {
      CyclicStays(t, models, before, refs[k].typ);
    }
  }

  lemma NameFound(t: Table, typ: string)
    requires t.InfoFor(typ).Some?
    ensures t.InfoFor(typ).value.fullName == typ
  {
  }

  lemma {:induction false} AcyclicSelected(t: Table, models: seq<string>, refs: seq<MemberRef>)
    requires forall k | 0 <= k < |refs| && Picked(t, refs[k]) :: !Cyclic(t, models, refs[k].typ)
    ensures BuildSelected(t, Enough(t), models, refs).Some?
    decreases |refs|
  {
    hide Build, Cyclic, PostOrdered, Table.InfoFor, Enough;
    if refs != [] {
      var init, m := refs[..|refs| - 1], refs[|refs| - 1];
      AcyclicSelected(t, models, init);
      SelectedCloses(t, Enough(t), models, init);
      var before := BuildSelected(t, Enough(t), models, init).value;
      if Picked(t, m) {
        FoundByName(t, m.typ);
        NameFound(t, m.typ);
        StillIn(models, before);
        AcyclicEnds(t, models, before, t.InfoFor(m.typ).value);
      }
    }
  }

  /** The loop over the members ends if and only if no cycle can be reached from a member whose model is made,
      through types that have no model before the loop. */
  lemma SelectedEnds(t: Table, models: seq<string>, refs: seq<MemberRef>)
    ensures (exists fuel: nat :: BuildSelected(t, fuel, models, refs).Some?) <==>
            forall k | 0 <= k < |refs| && Picked(t, refs[k]) :: !Cyclic(t, models, refs[k].typ)
  {
    hide BuildSelected, Cyclic, Picked;
    if fuel: nat :| BuildSelected(t, fuel, models, refs).Some? {
      forall k | 0 <= k < |refs| && Picked(t, refs[k])
        ensures !Cyclic(t, models, refs[k].typ)
      {
        SelectedAcyclic(t, fuel, models, refs, k);
      }
    }
    if forall k | 0 <= k < |refs| && Picked(t, refs[k]) :: !Cyclic(t, models, refs[k].typ) {
      AcyclicSelected(t, models, refs);
    }
  }

  /** The members before the first whose type was not collected, where `MakeDataSetModel` stops. */
  function Found(t: Table, refs: seq<MemberRef>): (r: seq<MemberRef>)
    ensures r <= refs && forall m | m in r :: t.InfoFor(m.typ).Some?
    ensures |r| < |refs| ==> t.InfoFor(refs[|r|].typ).None?
  {
    if refs == [] || t.InfoFor(refs[0].typ).None? then [] else [refs[0]] + Found(t, refs[1..])
  }
}
