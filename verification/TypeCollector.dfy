/** Collecting the types of a program: a search over a finite graph of types that fills three lists.
    Types are numbers; what reflection or the compiler says about them is a table. */
module TypeCollectors {
  type TypeId = nat

  datatype Member = Member(name: string, typ: TypeId, readable: bool, writable: bool)

  /** How a type passes the gates of the search: stopped by one of them, or as one of three kinds. */
  datatype Shape = Stopped | Enumeration | Generic | Plain

  datatype TypeDef = TypeDef(
    fullName: string, shape: Shape, arguments: seq<TypeId>, properties: seq<Member>, fields: seq<Member>)

  type Universe = seq<TypeDef>

  /** All types that are mentioned are in the table. */
  ghost predicate Closed(u: Universe) {
    forall t | 0 <= t < |u| ::
      && (forall a | a in u[t].arguments :: a < |u|)
      && (forall m | m in u[t].properties + u[t].fields :: m.typ < |u|)
  }

  predicate SpecialCase(fullName: string) {
    fullName == "global::System.ArraySegment<byte>" || fullName == "global::System.ArraySegment<byte>?"
  }

  /** The kind of entry that a type gets, Stopped if none. */
  function Kind(u: Universe, t: TypeId): Shape
    requires t < |u|
  {
    if u[t].shape.Generic? && SpecialCase(u[t].fullName) then Stopped else u[t].shape
  }

  /** Members that can be neither read nor written are left out. */
  function Kept(members: seq<Member>): seq<Member> {
    if members == [] then []
    else (if members[0].readable || members[0].writable then [members[0]] else []) + Kept(members[1..])
  }

  function KeptMembers(u: Universe, t: TypeId): seq<Member>
    requires t < |u|
  {
    Kept(u[t].properties) + Kept(u[t].fields)
  }

  /** The types that the search goes on to. */
  predicate Leads(u: Universe, t: TypeId, x: TypeId)
    requires t < |u|
  {
    && (Kind(u, t).Plain? || Kind(u, t).Generic?)
    && ((Kind(u, t).Generic? && x in u[t].arguments) || exists m | m in KeptMembers(u, t) :: m.typ == x)
  }

  predicate IsPath(u: Universe, path: seq<TypeId>) {
    && path != [] && path[0] < |u|
    && (|path| > 1 ==> Leads(u, path[0], path[1]) && IsPath(u, path[1..]))
  }

  ghost predicate Reachable(u: Universe, from: TypeId, to: TypeId) {
    exists path: seq<TypeId> :: IsPath(u, path) && path[0] == from && path[|path| - 1] == to
  }

  ghost predicate FromTargets(u: Universe, targets: seq<TypeId>, x: TypeId) {
    exists t | t in targets :: Reachable(u, t, x)
  }

  lemma FromTarget(u: Universe, targets: seq<TypeId>, t: TypeId, xs: set<TypeId>)
    requires t in targets && forall x | x in xs :: Reachable(u, t, x)
    ensures forall x | x in xs :: FromTargets(u, targets, x)
  {
  }

  lemma ReachableSelf(u: Universe, t: TypeId)
    requires t < |u|
    ensures Reachable(u, t, t)
  {
    assert IsPath(u, [t]);
  }

  lemma ReachableStep(u: Universe, t: TypeId, x: TypeId, y: TypeId)
    requires t < |u| && Leads(u, t, x) && Reachable(u, x, y)
    ensures Reachable(u, t, y)
  {
    var path :| IsPath(u, path) && path[0] == x && path[|path| - 1] == y;
    assert ([t] + path)[1..] == path;
    assert IsPath(u, [t] + path);
  }

  /** What a reachable type leads to is reachable. */
  lemma {:induction false} ReachableOn(u: Universe, path: seq<TypeId>, y: TypeId)
    requires IsPath(u, path) && y < |u| && path[|path| - 1] < |u| && Leads(u, path[|path| - 1], y)
    ensures IsPath(u, path + [y])
    decreases |path|
  {
    if |path| == 1 {
      assert (path + [y])[1..] == [y];
      assert IsPath(u, [y]);
    } else {
      ReachableOn(u, path[1..], y);
      assert (path + [y])[1..] == path[1..] + [y];
    }
  }

  lemma TargetsOn(u: Universe, targets: seq<TypeId>, x: TypeId, y: TypeId)
    requires x < |u| && y < |u| && FromTargets(u, targets, x) && Leads(u, x, y)
    ensures FromTargets(u, targets, y)
  {
    var t :| t in targets && Reachable(u, t, x);
    var path :| IsPath(u, path) && path[0] == t && path[|path| - 1] == x;
    ReachableOn(u, path, y);
    assert (path + [y])[0] == t && (path + [y])[|path|] == y;
    assert Reachable(u, t, y);
  }

  /** A set that the search cannot leave holds everything reachable from it. */
  lemma {:induction false} ClosedUnderPaths(u: Universe, visited: set<TypeId>, path: seq<TypeId>)
    requires forall x, y | x in visited && x < |u| && Leads(u, x, y) :: y in visited
    requires IsPath(u, path) && path[0] in visited
    ensures path[|path| - 1] in visited
    decreases |path|
  {
    if |path| > 1 {
      ClosedUnderPaths(u, visited, path[1..]);
    }
  }

  // ----- entries

  datatype MemberInfo = MemberInfo(name: string, typ: TypeId)

  /** An entry: the type, and the members that were kept, properties first. */
  datatype TypeInfo = TypeInfo(typ: TypeId, fullName: string, members: seq<MemberInfo>)

  function Infos(members: seq<Member>): seq<MemberInfo> {
    seq(|members|, i requires 0 <= i < |members| => MemberInfo(members[i].name, members[i].typ))
  }

  function InfoOf(u: Universe, t: TypeId): TypeInfo
    requires t < |u|
  {
    TypeInfo(t, u[t].fullName, if u[t].shape.Enumeration? then [] else Infos(KeptMembers(u, t)))
  }

  /** What the search has done so far. */
  datatype Workspace = Workspace(visited: set<TypeId>, objects: seq<TypeInfo>, enums: seq<TypeInfo>, generics: seq<TypeInfo>)

  /** The entries that types of a kind should have. */
  function Expected(u: Universe, types: set<TypeId>, kind: Shape): set<TypeInfo> {
    set x | x in types && x < |u| && Kind(u, x) == kind :: InfoOf(u, x)
  }

  /** `after` is `before` and exactly one entry for each of the new types of a kind. */
  ghost predicate Appended(u: Universe, before: seq<TypeInfo>, after: seq<TypeInfo>, new_: set<TypeId>, kind: Shape) {
    before <= after && multiset(after) == multiset(before) + multiset(Expected(u, new_, kind))
  }

  /** A finished part of the search: what is new is in the table, has all that it leads to
      visited, and has its one entry. */
  ghost predicate Explored(u: Universe, s: Workspace, t: Workspace) {
    var new_ := t.visited - s.visited;
    && s.visited <= t.visited && (forall x | x in new_ :: x < |u|)
    && (forall x, y | x in new_ && x < |u| && Leads(u, x, y) :: y in t.visited)
    && Appended(u, s.objects, t.objects, new_, Plain)
    && Appended(u, s.enums, t.enums, new_, Enumeration)
    && Appended(u, s.generics, t.generics, new_, Generic)
  }

  lemma ExpectedUnion(u: Universe, x: set<TypeId>, y: set<TypeId>, kind: Shape)
    requires x !! y
    ensures multiset(Expected(u, x + y, kind)) == multiset(Expected(u, x, kind)) + multiset(Expected(u, y, kind))
  {
    hide Kind;
    var a, b := Expected(u, x, kind), Expected(u, y, kind);
    assert a !! b;
    assert Expected(u, x + y, kind) == a + b;
  }

  lemma AppendedTrans(u: Universe, a: seq<TypeInfo>, b: seq<TypeInfo>, c: seq<TypeInfo>, x: set<TypeId>, y: set<TypeId>, kind: Shape)
    requires Appended(u, a, b, x, kind) && Appended(u, b, c, y, kind) && x !! y
    ensures Appended(u, a, c, x + y, kind)
  {
    hide Expected;
    ExpectedUnion(u, x, y, kind);
  }

  lemma ExploredTrans(u: Universe, r: Workspace, s: Workspace, t: Workspace)
    requires Explored(u, r, s) && Explored(u, s, t)
    ensures Explored(u, r, t)
  {
    hide Leads, Appended;
    var x, y := s.visited - r.visited, t.visited - s.visited;
    assert t.visited - r.visited == x + y;
    AppendedTrans(u, r.objects, s.objects, t.objects, x, y, Plain);
    AppendedTrans(u, r.enums, s.enums, t.enums, x, y, Enumeration);
    AppendedTrans(u, r.generics, s.generics, t.generics, x, y, Generic);
  }

  lemma ExploredNothing(u: Universe, s: Workspace)
    ensures Explored(u, s, s)
  {
  }

  /** The entry of a type, in the list for its kind. */
  function WithEntry(u: Universe, w: Workspace, t: TypeId): Workspace
    requires t < |u|
  {
    match Kind(u, t)
    case Stopped => w
    case Enumeration => w.(enums := w.enums + [InfoOf(u, t)])
    case Generic => w.(generics := w.generics + [InfoOf(u, t)])
    case Plain => w.(objects := w.objects + [InfoOf(u, t)])
  }

  lemma AppendedOne(u: Universe, a: seq<TypeInfo>, b: seq<TypeInfo>, new_: set<TypeId>, kind: Shape, t: TypeId)
    requires Appended(u, a, b, new_, kind) && t < |u| && t !in new_
    ensures Appended(u, a, if Kind(u, t) == kind then b + [InfoOf(u, t)] else b, new_ + {t}, kind)
  {
    hide InfoOf, Kind;
    ExpectedUnion(u, new_, {t}, kind);
    assert Expected(u, {t}, kind) == if Kind(u, t) == kind then {InfoOf(u, t)} else {};
  }

  /** A type is finished once all that it leads to is, and it has its entry. */
  lemma Finished(u: Universe, t: TypeId, s: Workspace, mid: Workspace)
    requires t < |u| && t !in s.visited && Explored(u, s.(visited := s.visited + {t}), mid)
    requires forall y | Leads(u, t, y) :: y in mid.visited
    ensures Explored(u, s, WithEntry(u, mid, t))
  {
    hide Leads, InfoOf, Kind, Appended;
    var new_ := mid.visited - (s.visited + {t});
    assert mid.visited - s.visited == new_ + {t};
    AppendedOne(u, s.objects, mid.objects, new_, Plain, t);
    AppendedOne(u, s.enums, mid.enums, new_, Enumeration, t);
    AppendedOne(u, s.generics, mid.generics, new_, Generic, t);
  }

  // ----- the search

  class TypeCollector {
    const u: Universe
    var alreadyCollected: set<TypeId>
    var collectedObjectInfo: seq<TypeInfo>
    var collectedEnumInfo: seq<TypeInfo>
    var collectedClosedTypeGenericInfo: seq<TypeInfo>

    constructor (u: Universe)
      ensures this.u == u && State() == Workspace({}, [], [], [])
    {
      this.u := u;
      alreadyCollected, collectedObjectInfo, collectedEnumInfo, collectedClosedTypeGenericInfo := {}, [], [], [];
    }

    ghost function State(): Workspace
      reads this
    {
      Workspace(alreadyCollected, collectedObjectInfo, collectedEnumInfo, collectedClosedTypeGenericInfo)
    }

    /** The types that are still to be visited. */
    ghost function Remaining(): set<TypeId>
      reads this
    {
      (set t {:trigger u[t]} | 0 <= t < |u|) - alreadyCollected
    }

    /** `Collect`: the types visited are exactly those reachable from the targets, and each of them
        that gets an entry has exactly one, in the list for its kind. */
    method Collect(targets: seq<TypeId>)
      requires Closed(u) && forall t | t in targets :: t < |u|
      modifies this
      ensures forall x :: x in alreadyCollected <==> FromTargets(u, targets, x)
      ensures forall x | x in alreadyCollected :: x < |u|
      ensures multiset(collectedObjectInfo) == multiset(Expected(u, alreadyCollected, Plain))
      ensures multiset(collectedEnumInfo) == multiset(Expected(u, alreadyCollected, Enumeration))
      ensures multiset(collectedClosedTypeGenericInfo) == multiset(Expected(u, alreadyCollected, Generic))
      ensures forall x | x in alreadyCollected && u[x].shape.Generic? ::
        (exists e :: e in collectedClosedTypeGenericInfo && e.typ == x) <==>
        u[x].fullName != "global::System.ArraySegment<byte>" && u[x].fullName != "global::System.ArraySegment<byte>?"
    {
      hide Closed, Explored, Reachable, FromTargets, Expected;
      alreadyCollected, collectedObjectInfo, collectedEnumInfo, collectedClosedTypeGenericInfo := {}, [], [], [];
      ghost var begun := State();
      ExploredNothing(u, begun);
      var k := 0;
      while k < |targets|
        invariant k <= |targets| && Explored(u, begun, State())
        invariant forall i | 0 <= i < k :: targets[i] in alreadyCollected
        invariant forall x | x in alreadyCollected :: FromTargets(u, targets, x)
      {
        ghost var mid := State();
        var item := targets[k];
        assert item in targets;
        CollectCore(item);
        ExploredGrows(u, mid, State());
        ExploredTrans(u, begun, mid, State());
        FromTarget(u, targets, item, alreadyCollected - mid.visited);
        k := k + 1;
      }
      Everything(u, targets, begun, State());
      GenericEntries(u, alreadyCollected, collectedClosedTypeGenericInfo);
    }

    /** `CollectCore`: everything reachable from a type is visited, and has its entry. */
    method CollectCore(typ: TypeId)
      requires Closed(u) && typ < |u|
      modifies this
      ensures Explored(u, old(State()), State()) && typ in alreadyCollected
      ensures forall x | x in alreadyCollected - old(alreadyCollected) :: Reachable(u, typ, x)
      decreases Remaining(), 0
    {
      ghost var s := State();
      if typ in alreadyCollected {
        ExploredNothing(u, s);
        return;
      }
      alreadyCollected := alreadyCollected + {typ};
      ExploredNothing(u, State());
      ReachableSelf(u, typ);
      match u[typ].shape
      case Stopped =>
        Finished(u, typ, s, State());
      case Enumeration =>
        Finished(u, typ, s, State());
        collectedEnumInfo := collectedEnumInfo + [InfoOf(u, typ)];
      case Generic =>
        CollectGeneric(typ, s);
      case Plain =>
        CollectObject(typ, s);
    }

    method CollectGeneric(typ: TypeId, ghost s: Workspace)
      requires Closed(u) && typ < |u| && u[typ].shape.Generic?
      requires typ !in s.visited && State() == s.(visited := s.visited + {typ})
      modifies this
      ensures Explored(u, s, State()) && typ in alreadyCollected
      ensures forall x | x in alreadyCollected - old(alreadyCollected) :: Reachable(u, typ, x)
      decreases Remaining(), 3
    {
      ghost var begun := State();
      ExploredNothing(u, begun);
      if SpecialCase(u[typ].fullName) {
        Finished(u, typ, s, begun);
        return;
      }
      hide Explored, Leads, Closed, Reachable;
      CollectArguments(typ);
      var info := GetObjectInfo(typ, begun);
      LeadsOn(u, typ, alreadyCollected);
      Finished(u, typ, s, State());
      collectedClosedTypeGenericInfo := collectedClosedTypeGenericInfo + [info];
    }

    /** The types that a generic type is made of. */
    method CollectArguments(typ: TypeId)
      requires Closed(u) && typ < |u| && Kind(u, typ).Generic?
      modifies this
      ensures Explored(u, old(State()), State()) && old(alreadyCollected) <= alreadyCollected
      ensures forall i | 0 <= i < |u[typ].arguments| :: u[typ].arguments[i] in alreadyCollected
      ensures forall x | x in alreadyCollected - old(alreadyCollected) :: Reachable(u, typ, x)
      decreases Remaining(), 1
    {
      hide Explored, Leads, Closed, Reachable;
      ghost var begun := State();
      ExploredNothing(u, begun);
      var k := 0;
      while k < |u[typ].arguments|
        invariant k <= |u[typ].arguments|
        invariant Explored(u, begun, State()) && begun.visited <= alreadyCollected
        invariant forall i | 0 <= i < k :: u[typ].arguments[i] in alreadyCollected
        invariant forall x | x in alreadyCollected - begun.visited :: Reachable(u, typ, x)
      {
        ghost var mid := State();
        var item := u[typ].arguments[k];
        ArgumentLeads(u, typ, item);
        CollectCore(item);
        ExploredGrows(u, mid, State());
        ExploredTrans(u, begun, mid, State());
        FromSuccessor(u, typ, item, mid.visited, alreadyCollected);
        k := k + 1;
      }
    }

    method CollectObject(typ: TypeId, ghost s: Workspace)
      requires Closed(u) && typ < |u| && u[typ].shape.Plain?
      requires typ !in s.visited && State() == s.(visited := s.visited + {typ})
      modifies this
      ensures Explored(u, s, State()) && typ in alreadyCollected
      ensures forall x | x in alreadyCollected - old(alreadyCollected) :: Reachable(u, typ, x)
      decreases Remaining(), 3
    {
      hide Explored, Leads, Closed, Reachable;
      ExploredNothing(u, State());
      var info := GetObjectInfo(typ, State());
      LeadsOn(u, typ, alreadyCollected);
      Finished(u, typ, s, State());
      collectedObjectInfo := collectedObjectInfo + [info];
    }

    /** The entry of a type; its kept members are collected on the way. */
    method GetObjectInfo(typ: TypeId, ghost begun: Workspace) returns (info: TypeInfo)
      requires Closed(u) && typ < |u| && (Kind(u, typ).Plain? || Kind(u, typ).Generic?)
      requires Explored(u, begun, State())
      requires forall x | x in alreadyCollected - begun.visited :: Reachable(u, typ, x)
      modifies this
      ensures info == InfoOf(u, typ) && Explored(u, begun, State()) && old(alreadyCollected) <= alreadyCollected
      ensures forall m | m in KeptMembers(u, typ) :: m.typ in alreadyCollected
      ensures forall x | x in alreadyCollected - begun.visited :: Reachable(u, typ, x)
      decreases Remaining(), 2
    {
      hide Explored, Leads, Closed, Reachable, Kept;
      var properties := CollectMembers(typ, u[typ].properties, begun);
      var fields := CollectMembers(typ, u[typ].fields, begun);
      info := TypeInfo(typ, u[typ].fullName, properties + fields);
      assert Infos(Kept(u[typ].properties)) + Infos(Kept(u[typ].fields)) == Infos(KeptMembers(u, typ));
    }

    method CollectMembers(typ: TypeId, items: seq<Member>, ghost begun: Workspace) returns (members: seq<MemberInfo>)
      requires Closed(u) && typ < |u| && (Kind(u, typ).Plain? || Kind(u, typ).Generic?)
      requires items == u[typ].properties || items == u[typ].fields
      requires Explored(u, begun, State())
      requires forall x | x in alreadyCollected - begun.visited :: Reachable(u, typ, x)
      modifies this
      ensures members == Infos(Kept(items)) && Explored(u, begun, State()) && old(alreadyCollected) <= alreadyCollected
      ensures forall m | m in Kept(items) :: m.typ in alreadyCollected
      ensures forall x | x in alreadyCollected - begun.visited :: Reachable(u, typ, x)
      decreases Remaining(), 1
    {
      hide Explored, Leads, Closed, Reachable, Kept, Infos;
      members := [];
      var k := 0;
      assert items[..|items|] == items;
      KeptNothing();
      while k < |items|
        invariant k <= |items| && members == Infos(Kept(items[..k]))
        invariant Explored(u, begun, State()) && old(alreadyCollected) <= alreadyCollected
        invariant forall m | m in Kept(items[..k]) :: m.typ in alreadyCollected
        invariant forall x | x in alreadyCollected - begun.visited :: Reachable(u, typ, x)
      {
        var item := items[k];
        KeptSnoc(items, k);
        InfosSnoc(Kept(items[..k]), item);
        if item.readable || item.writable {
          members := members + [MemberInfo(item.name, item.typ)];
          KeptLeads(u, typ, items, k);
          ghost var mid := State();
          MemberInTable(u, typ, items, k);
          CollectCore(item.typ);
          ExploredGrows(u, mid, State());
          ExploredTrans(u, begun, mid, State());
          FromSuccessor(u, typ, item.typ, mid.visited, alreadyCollected);
        }
        k := k + 1;
      }
    }
  }

  /** Starting from nothing, the finished search has visited all that is reachable. */
  lemma Everything(u: Universe, targets: seq<TypeId>, begun: Workspace, done: Workspace)
    requires begun == Workspace({}, [], [], []) && Explored(u, begun, done)
    requires forall t | t in targets :: t in done.visited
    ensures forall x | FromTargets(u, targets, x) :: x in done.visited
    ensures forall x | x in done.visited :: x < |u|
    ensures multiset(done.objects) == multiset(Expected(u, done.visited, Plain))
    ensures multiset(done.enums) == multiset(Expected(u, done.visited, Enumeration))
    ensures multiset(done.generics) == multiset(Expected(u, done.visited, Generic))
  {
    hide Leads, Expected;
    assert done.visited - {} == done.visited;
    forall x | FromTargets(u, targets, x)
      ensures x in done.visited
    {
      var t :| t in targets && Reachable(u, t, x);
      var path :| IsPath(u, path) && path[0] == t && path[|path| - 1] == x;
      ClosedUnderPaths(u, done.visited, path);
    }
  }

  lemma LeadsOn(u: Universe, t: TypeId, visited: set<TypeId>)
    requires t < |u|
    requires Kind(u, t).Generic? ==> forall i | 0 <= i < |u[t].arguments| :: u[t].arguments[i] in visited
    requires forall m | m in KeptMembers(u, t) :: m.typ in visited
    ensures forall y | Leads(u, t, y) :: y in visited
  {
  }

  lemma ExploredGrows(u: Universe, s: Workspace, t: Workspace)
    requires Explored(u, s, t)
    ensures s.visited <= t.visited
  {
  }

  lemma ArgumentLeads(u: Universe, t: TypeId, x: TypeId)
    requires Closed(u) && t < |u| && Kind(u, t).Generic? && x in u[t].arguments
    ensures Leads(u, t, x) && x < |u|
  {
  }

  lemma FromSuccessor(u: Universe, t: TypeId, x: TypeId, before: set<TypeId>, after: set<TypeId>)
    requires t < |u| && Leads(u, t, x)
    requires forall y | y in after - before :: Reachable(u, x, y)
    ensures forall y | y in after - before :: Reachable(u, t, y)
  {
    forall y | y in after - before
      ensures Reachable(u, t, y)
    {
      ReachableStep(u, t, x, y);
    }
  }

  lemma {:induction false} KeptConcat(a: seq<Member>, b: seq<Member>)
    ensures Kept(a + b) == Kept(a) + Kept(b)
    decreases |a|
  {
    if a == [] {
      assert a + b == b;
    } else {
      assert (a + b)[1..] == a[1..] + b && (a + b)[0] == a[0];
      KeptConcat(a[1..], b);
      var first := if a[0].readable || a[0].writable then [a[0]] else [];
      assert first + (Kept(a[1..]) + Kept(b)) == first + Kept(a[1..]) + Kept(b);
    }
  }

  lemma KeptNothing()
    ensures Kept([]) == [] && Infos([]) == []
  {
  }

  lemma InfosSnoc(members: seq<Member>, m: Member)
    ensures Infos(members + [m]) == Infos(members) + [MemberInfo(m.name, m.typ)]
    ensures members + [] == members
  {
  }

  lemma MemberInTable(u: Universe, t: TypeId, items: seq<Member>, k: nat)
    requires Closed(u) && t < |u| && (items == u[t].properties || items == u[t].fields) && k < |items|
    ensures items[k].typ < |u|
  {
    assert items[k] in u[t].properties + u[t].fields;
  }

  lemma KeptSnoc(items: seq<Member>, k: nat)
    requires k < |items|
    ensures Kept(items[..k + 1]) == Kept(items[..k]) + if items[k].readable || items[k].writable then [items[k]] else []
  {
    assert items[..k + 1] == items[..k] + [items[k]];
    KeptConcat(items[..k], [items[k]]);
    assert [items[k]][1..] == [];
  }

  lemma KeptLeads(u: Universe, t: TypeId, items: seq<Member>, k: nat)
    requires t < |u| && (Kind(u, t).Plain? || Kind(u, t).Generic?)
    requires items == u[t].properties || items == u[t].fields
    requires k < |items| && (items[k].readable || items[k].writable)
    ensures Leads(u, t, items[k].typ)
  {
    KeptSnoc(items, k);
    assert items == items[..k + 1] + items[k + 1..];
    KeptConcat(items[..k + 1], items[k + 1..]);
    assert items[k] in Kept(items);
    assert items[k] in KeptMembers(u, t);
  }

  /** Which generic types have an entry. */
  lemma GenericEntries(u: Universe, visited: set<TypeId>, list: seq<TypeInfo>)
    requires multiset(list) == multiset(Expected(u, visited, Generic)) && forall x | x in visited :: x < |u|
    ensures forall x | x in visited && u[x].shape.Generic? ::
      (exists e :: e in list && e.typ == x) <==>
      u[x].fullName != "global::System.ArraySegment<byte>" && u[x].fullName != "global::System.ArraySegment<byte>?"
  {
    forall x | x in visited && u[x].shape.Generic?
      ensures (exists e :: e in list && e.typ == x) <==> !SpecialCase(u[x].fullName)
    {
      hide SpecialCase;
      if e :| e in list && e.typ == x {
        assert e in multiset(list);
      }
      if !SpecialCase(u[x].fullName) {
        assert InfoOf(u, x) in multiset(list);
      }
    }
  }

  /** What an entry says: of the properties first, then of the fields, the members that are kept. */
  lemma EntrySays(u: Universe, t: TypeId)
    requires t < |u|
    ensures InfoOf(u, t).typ == t && InfoOf(u, t).fullName == u[t].fullName
    ensures InfoOf(u, t).members ==
            if u[t].shape.Enumeration? then [] else Infos(Kept(u[t].properties)) + Infos(Kept(u[t].fields))
  {
    hide Kept;
  }

  /** The members that can be read or written are kept, in their order, with their names and types. */
  lemma KeptMember(before: seq<Member>, m: Member, after: seq<Member>)
    ensures Infos(Kept([])) == []
    ensures Infos(Kept(before + [m] + after)) ==
            Infos(Kept(before)) + (if m.readable || m.writable then [MemberInfo(m.name, m.typ)] else []) + Infos(Kept(after))
  {
    KeptOne(m);
    hide Kept;
    KeptConcat(before + [m], after);
    KeptConcat(before, [m]);
  }

  lemma KeptOne(m: Member)
    ensures Kept([]) == [] && Kept([m]) == if m.readable || m.writable then [m] else []
  {
    assert [m][1..] == [];
  }

  /** Where the search goes on: from an object or a generic type to the types of its kept members, and from a
      generic type to its arguments as well. */
  lemma LeadsTo(u: Universe, t: TypeId, x: TypeId)
    requires t < |u|
    ensures Leads(u, t, x) <==>
            && (u[t].shape.Plain?
                || (u[t].shape.Generic? && u[t].fullName != "global::System.ArraySegment<byte>"
                    && u[t].fullName != "global::System.ArraySegment<byte>?"))
            && ((u[t].shape.Generic? && x in u[t].arguments)
                || exists m :: m in u[t].properties + u[t].fields && m.typ == x && (m.readable || m.writable))
  {
    KeptIs(u[t].properties);
    KeptIs(u[t].fields);
    hide Kept;
    assert forall m :: m in KeptMembers(u, t) <==> m in Kept(u[t].properties) || m in Kept(u[t].fields);
    assert forall m :: m in u[t].properties + u[t].fields <==> m in u[t].properties || m in u[t].fields;
  }

  lemma {:induction false} KeptIs(members: seq<Member>)
    ensures forall m :: m in Kept(members) <==> m in members && (m.readable || m.writable)
    decreases |members|
  {
    if members != [] {
      KeptIs(members[1..]);
    }
  }

  // ----- the gates of the search over symbols

  datatype Accessibility = Public | Internal | Otherwise

  /** A symbol: its accessibility and that of the types around it, from the inside out. */
  datatype Symbol = Symbol(
    accessibility: seq<Accessibility>, isNamed: bool, isEnum: bool, isGeneric: bool, isTuple: bool, isInMetadata: bool) {

    /** A named type that is visible enough. */
    ghost predicate Admitted(disallowInternal: bool) {
      isNamed && (disallowInternal ==> forall a | a in accessibility :: a == Public)
    }
  }

  /** A symbol passes if it and all types around it are public; without `disallowInternal` every
      symbol passes, the private ones as well. */
  method IsAllowAccessibility(symbol: Symbol, disallowInternal: bool) returns (allowed: bool)
    requires symbol.accessibility != []
    ensures allowed <==> !disallowInternal || forall a | a in symbol.accessibility :: a == Public
  {
    var k := 0;
    while k < |symbol.accessibility|
      invariant k <= |symbol.accessibility|
      invariant disallowInternal ==> forall i | 0 <= i < k :: symbol.accessibility[i] == Public
    {
      if symbol.accessibility[k] != Public {
        if disallowInternal {
          assert symbol.accessibility[k] in symbol.accessibility;
          return false;
        }
        if symbol.accessibility[k] != Internal {
          return true;
        }
      }
      k := k + 1;
    }
    allowed := true;
  }

  /** How a symbol passes the gates of `CollectCore`. A tuple is taken for its underlying generic type. What
      comes from metadata is stopped, but only behind enumerations, generic types and tuples. */
  method Gate(symbol: Symbol, disallowInternal: bool) returns (shape: Shape)
    requires symbol.accessibility != []
    ensures shape.Enumeration? <==> symbol.Admitted(disallowInternal) && symbol.isEnum
    ensures shape.Generic? <==> symbol.Admitted(disallowInternal) && !symbol.isEnum && (symbol.isGeneric || symbol.isTuple)
    ensures shape.Plain? <==>
              && symbol.Admitted(disallowInternal) && !symbol.isInMetadata
              && !symbol.isEnum && !symbol.isGeneric && !symbol.isTuple
  {
    var allowed := IsAllowAccessibility(symbol, disallowInternal);
    if !allowed || !symbol.isNamed {
      return Stopped;
    }
    if symbol.isEnum {
      return Enumeration;
    }
    if symbol.isGeneric || symbol.isTuple {
      return Generic;
    }
    shape := if symbol.isInMetadata then Stopped else Plain;
  }
}
