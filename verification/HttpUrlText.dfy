/** URLs put together from their parts: the splitter gives each part back. */
module HttpUrlText {
  import opened Wrappers
  import opened HttpTypes
  import opened HttpMachine
  import opened HttpNumbers
  import opened HttpUrl

  /** A host is a name, or an IPv6 address in brackets with an optional zone. */
  datatype HostText = Name(name: Bytes) | Address(address: Bytes, zone: Option<Bytes>)

  datatype UrlText = UrlText(
    schema: Bytes, userinfo: Option<Bytes>, host: HostText, port: Option<Bytes>,
    path: Bytes, query: Option<Bytes>, fragment: Option<Bytes>)

  type Label = Option<UrlField>

  function Optional(before: Bytes, part: Option<Bytes>): Bytes { if part.None? then [] else before + part.value }

  function HostBytes(h: HostText): Bytes {
    match h
    case Name(name) => name
    case Address(address, zone) => "[" + address + Optional("%", zone) + "]"
  }

  function AuthorityBytes(u: UrlText): Bytes {
    (if u.userinfo.None? then [] else u.userinfo.value + "@") + HostBytes(u.host) + Optional(":", u.port)
  }

  function UrlBytes(u: UrlText): Bytes {
    u.schema + "://" + AuthorityBytes(u) + u.path + Optional("?", u.query) + Optional("#", u.fragment)
  }

  // ----- which parts there may be

  predicate All(p: Byte -> bool, part: Bytes) { forall i | 0 <= i < |part| :: p(part[i]) }

  predicate IsAddressChar(ch: Byte) { IsHex(ch) || ch == ':' || ch == '.' }
  predicate IsQueryChar(ch: Byte) { IsUrlChar(ch) || ch == '?' }
  predicate IsFragmentChar(ch: Byte) { IsUrlChar(ch) || ch == '?' || ch == '#' }

  predicate GoodHost(h: HostText) {
    match h
    case Name(name) => name != [] && All(IsHostChar, name)
    case Address(address, zone) =>
      && address != [] && All(IsAddressChar, address)
      && (zone.Some? ==> zone.value != [] && All(IsZoneChar, zone.value))
  }

  predicate GoodAuthority(u: UrlText) {
    && GoodHost(u.host)
    && (u.userinfo.Some? ==> u.userinfo.value != [] && All(IsUserinfoChar, u.userinfo.value))
    && (u.port.Some? ==> u.port.value != [] && All(IsNum, u.port.value))
  }

  /** A fragment needs a path or a query before it, and does not begin with '#'. */
  predicate GoodUrl(u: UrlText) {
    && u.schema != [] && All(IsAlpha, u.schema) && GoodAuthority(u)
    && (u.path != [] ==> u.path[0] == '/' && All(IsUrlChar, u.path))
    && (u.query.Some? ==> All(IsQueryChar, u.query.value))
    && (u.fragment.Some? ==> u.fragment.value != [] && u.fragment.value[0] != '#' && All(IsFragmentChar, u.fragment.value))
    && (u.fragment.Some? ==> u.path != [] || u.query.Some?)
  }

  // ----- what the labels should be

  function Run(k: UrlField, n: nat): seq<Label> { seq(n, _ => Some(k)) }

  function Marked(part: Option<Bytes>, k: UrlField): seq<Label> {
    if part.None? then [] else [None] + Run(k, |part.value|)
  }

  function HostLabels(h: HostText): seq<Label> {
    match h
    case Name(name) => Run(Host, |name|)
    case Address(address, zone) => [None] + Run(Host, |address + Optional("%", zone)|) + [None]
  }

  function AuthorityLabels(u: UrlText): seq<Label> {
    (if u.userinfo.None? then [] else Run(Userinfo, |u.userinfo.value|) + [None]) + HostLabels(u.host) + Marked(u.port, Port)
  }

  /** Labels before and after the authority. */
  function LabelsBefore(u: UrlText): seq<Label> { Run(Schema, |u.schema|) + [None, None, None] }

  function LabelsAfter(u: UrlText): seq<Label> {
    Run(Path, |u.path|) + Marked(u.query, Query) + Marked(u.fragment, Fragment)
  }

  // ----- the automata on texts put together

  lemma {:induction false} UrlConcat(s: State, a: Bytes, b: Bytes)
    ensures UrlState(s, a + b) == UrlState(UrlState(s, a), b)
    ensures UrlLabels(s, a + b) == UrlLabels(s, a) + UrlLabels(UrlState(s, a), b)
    decreases |b|
  {
    hide ParseUrlChar, UrlLabel;
    if b == [] {
      assert a + b == a;
    } else {
      var n := |b| - 1;
      assert (a + b)[..|a + b| - 1] == a + b[..n] && (a + b)[|a + b| - 1] == b[n];
      UrlConcat(s, a, b[..n]);
      assert UrlState(s, a + b) == UrlState(UrlState(s, a), b);
    }
  }

  lemma UrlOne(s: State, ch: Byte)
    ensures UrlState(s, [ch]) == ParseUrlChar(s, ch)
    ensures UrlLabels(s, [ch]) == [UrlLabel(ParseUrlChar(s, ch))]
  {
    assert [ch][..0] == [];
  }

  lemma UrlNone(s: State)
    ensures UrlState(s, []) == s && UrlLabels(s, []) == []
  {
  }

  /** Bytes that all lead to a state and stay there. */
  lemma {:induction false} UrlRun(s: State, t: State, part: Bytes)
    requires part != [] && AtField(t) && ParseUrlChar(s, part[0]) == t
    requires forall i | 0 <= i < |part| :: ParseUrlChar(t, part[i]) == t
    ensures UrlState(s, part) == t && UrlLabels(s, part) == Run(FieldAt(t), |part|)
    decreases |part|
  {
    hide ParseUrlChar;
    var n := |part| - 1;
    assert part == part[..n] + [part[n]];
    UrlOne(if n == 0 then s else t, part[n]);
    if n > 0 {
      UrlRun(s, t, part[..n]);
      UrlConcat(s, part[..n], [part[n]]);
      assert Run(FieldAt(t), n) + [Some(FieldAt(t))] == Run(FieldAt(t), n + 1);
    }
  }

  lemma {:induction false} PartConcat(s: HostState, a: Bytes, b: Bytes)
    ensures AuthorityState(s, a + b) == AuthorityState(AuthorityState(s, a), b)
    ensures PartLabels(s, a + b) == PartLabels(s, a) + PartLabels(AuthorityState(s, a), b)
    decreases |b|
  {
    hide ParseHostChar;
    if b == [] {
      assert a + b == a;
    } else {
      var n := |b| - 1;
      assert (a + b)[..|a + b| - 1] == a + b[..n];
      PartConcat(s, a, b[..n]);
    }
  }

  lemma PartOne(s: HostState, ch: Byte)
    ensures AuthorityState(s, [ch]) == ParseHostChar(s, ch)
    ensures PartLabels(s, [ch]) == [PartLabel(ParseHostChar(s, ch))]
  {
    assert [ch][..0] == [];
  }

  lemma {:induction false} PartRun(s: HostState, t: HostState, part: Bytes)
    requires part != [] && AtPart(t) && ParseHostChar(s, part[0]) == t
    requires forall i | 0 <= i < |part| :: ParseHostChar(t, part[i]) == t
    ensures AuthorityState(s, part) == t && PartLabels(s, part) == Run(PartAt(t), |part|)
    decreases |part|
  {
    hide ParseHostChar;
    var n := |part| - 1;
    assert part == part[..n] + [part[n]];
    PartOne(if n == 0 then s else t, part[n]);
    if n > 0 {
      PartRun(s, t, part[..n]);
      PartConcat(s, part[..n], [part[n]]);
      assert Run(PartAt(t), n) + [Some(PartAt(t))] == Run(PartAt(t), n + 1);
    }
  }

  /** A delimiter and a run after it. */
  lemma DelimitedRun(s: State, ch: Byte, t: State, part: Bytes, u: State)
    requires ParseUrlChar(s, ch) == t && !AtField(t) && AtField(u)
    requires part == [] || ParseUrlChar(t, part[0]) == u
    requires forall i | 0 <= i < |part| :: ParseUrlChar(u, part[i]) == u
    ensures UrlState(s, [ch] + part) == if part == [] then t else u
    ensures UrlLabels(s, [ch] + part) == [None] + Run(FieldAt(u), |part|)
  {
    hide ParseUrlChar;
    UrlOne(s, ch);
    UrlConcat(s, [ch], part);
    if part == [] {
      assert [ch] + part == [ch];
    } else {
      UrlRun(t, u, part);
    }
  }

  // ----- the first pass

  lemma SchemaChar(ch: Byte)
    requires IsAlpha(ch)
    ensures ParseUrlChar(ReqSpacesBeforeUrl, ch) == ReqSchema && ParseUrlChar(ReqSchema, ch) == ReqSchema
  {
  }

  lemma SchemaSteps(schema: Bytes)
    requires All(IsAlpha, schema)
    ensures forall i | 0 <= i < |schema| :: ParseUrlChar(ReqSpacesBeforeUrl, schema[i]) == ReqSchema
    ensures forall i | 0 <= i < |schema| :: ParseUrlChar(ReqSchema, schema[i]) == ReqSchema
    ensures ParseUrlChar(ReqSchema, ':') == ReqSchemaSlash
    ensures ParseUrlChar(ReqSchemaSlash, '/') == ReqSchemaSlashSlash
    ensures ParseUrlChar(ReqSchemaSlashSlash, '/') == ReqServerStart
  {
    forall i | 0 <= i < |schema|
      ensures ParseUrlChar(ReqSpacesBeforeUrl, schema[i]) == ReqSchema && ParseUrlChar(ReqSchema, schema[i]) == ReqSchema
    {
      SchemaChar(schema[i]);
    }
  }

  lemma SchemaRuns(u: UrlText)
    requires u.schema != [] && All(IsAlpha, u.schema)
    ensures UrlState(ReqSpacesBeforeUrl, u.schema + "://") == ReqServerStart
    ensures UrlLabels(ReqSpacesBeforeUrl, u.schema + "://") == LabelsBefore(u)
  {
    hide ParseUrlChar, UrlState, UrlLabels;
    SchemaSteps(u.schema);
    UrlRun(ReqSpacesBeforeUrl, ReqSchema, u.schema);
    UrlOne(ReqSchema, ':');
    UrlOne(ReqSchemaSlash, '/');
    UrlOne(ReqSchemaSlashSlash, '/');
    UrlConcat(ReqSchema, ":", "/");
    UrlConcat(ReqSchema, ":" + "/", "/");
    assert ":" + "/" + "/" == "://";
    UrlConcat(ReqSpacesBeforeUrl, u.schema, "://");
  }

  predicate IsServerChar(ch: Byte) { IsUserinfoChar(ch) || ch == '[' || ch == ']' }

  lemma ServerChar(ch: Byte)
    requires IsServerChar(ch)
    ensures ParseUrlChar(ReqServerStart, ch) == ReqServer && ParseUrlChar(ReqServer, ch) == ReqServer
    ensures ParseUrlChar(ReqServerWithAt, ch) == ReqServer
  {
  }

  lemma ServerSteps(part: Bytes)
    requires All(IsServerChar, part)
    ensures forall i | 0 <= i < |part| :: ParseUrlChar(ReqServerStart, part[i]) == ReqServer
    ensures forall i | 0 <= i < |part| :: ParseUrlChar(ReqServer, part[i]) == ReqServer
    ensures forall i | 0 <= i < |part| :: ParseUrlChar(ReqServerWithAt, part[i]) == ReqServer
    ensures ParseUrlChar(ReqServer, '@') == ReqServerWithAt
  {
    forall i | 0 <= i < |part|
      ensures ParseUrlChar(ReqServerStart, part[i]) == ReqServer && ParseUrlChar(ReqServer, part[i]) == ReqServer
      ensures ParseUrlChar(ReqServerWithAt, part[i]) == ReqServer
    {
      ServerChar(part[i]);
    }
  }

  lemma AuthorityRuns(u: UrlText)
    requires GoodAuthority(u)
    ensures UrlState(ReqServerStart, AuthorityBytes(u)) == ReqServer
    ensures UrlLabels(ReqServerStart, AuthorityBytes(u)) == Run(Host, |AuthorityBytes(u)|)
  {
    hide ParseUrlChar, UrlState, UrlLabels, HostBytes, IsServerChar;
    var rest := HostBytes(u.host) + Optional(":", u.port);
    ServerChars(u);
    ServerSteps(rest);
    if u.userinfo.None? {
      assert AuthorityBytes(u) == rest;
      UrlRun(ReqServerStart, ReqServer, rest);
    } else {
      var userinfo := u.userinfo.value;
      ServerSteps(userinfo);
      UrlRun(ReqServerStart, ReqServer, userinfo);
      UrlOne(ReqServer, '@');
      UrlRun(ReqServerWithAt, ReqServer, rest);
      UrlConcat(ReqServerStart, userinfo, "@");
      UrlConcat(ReqServerStart, userinfo + "@", rest);
      assert AuthorityBytes(u) == userinfo + "@" + rest;
      assert Run(Host, |userinfo|) + [Some(Host)] + Run(Host, |rest|) == Run(Host, |AuthorityBytes(u)|);
    }
  }

  lemma ServerChars(u: UrlText)
    requires GoodAuthority(u)
    ensures All(IsServerChar, HostBytes(u.host) + Optional(":", u.port))
    ensures HostBytes(u.host) != []
    ensures u.userinfo.Some? ==> All(IsServerChar, u.userinfo.value)
  {
    HostChars(u.host);
    var port := Optional(":", u.port);
    forall i | 0 <= i < |port|
      ensures IsServerChar(port[i])
    {
      if i > 0 {
        assert IsNum(u.port.value[i - 1]);
      }
    }
  }

  lemma HostChars(h: HostText)
    requires GoodHost(h)
    ensures All(IsServerChar, HostBytes(h)) && HostBytes(h) != []
  {
    var bytes := HostBytes(h);
    forall i | 0 <= i < |bytes|
      ensures IsServerChar(bytes[i])
    {
      match h
      case Name(name) => assert IsHostChar(name[i]);
      case Address(address, zone) =>
        if 0 < i <= |address| {
          assert IsAddressChar(address[i - 1]);
        } else if |address| + 1 < i < |bytes| - 1 {
          assert IsZoneChar(zone.value[i - |address| - 2]);
        }
    }
  }

  lemma PathSteps(path: Bytes)
    requires path != [] && path[0] == '/' && All(IsUrlChar, path)
    ensures ParseUrlChar(ReqServer, path[0]) == ReqPath
    ensures forall i | 0 <= i < |path| :: ParseUrlChar(ReqPath, path[i]) == ReqPath
  {
  }

  lemma QuerySteps(s: State, query: Bytes)
    requires (s == ReqServer || s == ReqPath) && All(IsQueryChar, query)
    ensures ParseUrlChar(s, '?') == ReqQueryStringStart
    ensures forall i | 0 <= i < |query| :: ParseUrlChar(ReqQueryStringStart, query[i]) == ReqQueryString
    ensures forall i | 0 <= i < |query| :: ParseUrlChar(ReqQueryString, query[i]) == ReqQueryString
  {
  }

  lemma FragmentChar(ch: Byte)
    requires IsFragmentChar(ch)
    ensures ParseUrlChar(ReqFragment, ch) == ReqFragment && (ch != '#' ==> ParseUrlChar(ReqFragmentStart, ch) == ReqFragment)
  {
  }

  lemma FragmentSteps(s: State, fragment: Bytes)
    requires s == ReqPath || s == ReqQueryStringStart || s == ReqQueryString
    requires fragment != [] && fragment[0] != '#' && All(IsFragmentChar, fragment)
    ensures ParseUrlChar(s, '#') == ReqFragmentStart
    ensures ParseUrlChar(ReqFragmentStart, fragment[0]) == ReqFragment
    ensures forall i | 0 <= i < |fragment| :: ParseUrlChar(ReqFragment, fragment[i]) == ReqFragment
  {
    forall i | 0 <= i < |fragment|
      ensures ParseUrlChar(ReqFragment, fragment[i]) == ReqFragment
      ensures fragment[i] != '#' ==> ParseUrlChar(ReqFragmentStart, fragment[i]) == ReqFragment
    {
      FragmentChar(fragment[i]);
    }
  }

  /** The state after the path, and after the query. */
  function AfterPath(u: UrlText): State { if u.path == [] then ReqServer else ReqPath }

  function AfterQuery(u: UrlText): State {
    if u.query.None? then AfterPath(u) else if u.query.value == [] then ReqQueryStringStart else ReqQueryString
  }

  lemma PathRuns(u: UrlText)
    requires GoodUrl(u)
    ensures UrlState(ReqServer, u.path) == AfterPath(u) && UrlLabels(ReqServer, u.path) == Run(Path, |u.path|)
  {
    hide ParseUrlChar, UrlState, UrlLabels, GoodAuthority;
    UrlNone(ReqServer);
    if u.path != [] {
      PathSteps(u.path);
      UrlRun(ReqServer, ReqPath, u.path);
    }
  }

  lemma QueryRuns(u: UrlText)
    requires GoodUrl(u)
    ensures var query := Optional("?", u.query);
            UrlState(AfterPath(u), query) == AfterQuery(u) && UrlLabels(AfterPath(u), query) == Marked(u.query, Query)
  {
    hide ParseUrlChar, UrlState, UrlLabels, GoodAuthority;
    UrlNone(AfterPath(u));
    if u.query.Some? {
      QuerySteps(AfterPath(u), u.query.value);
      DelimitedRun(AfterPath(u), '?', ReqQueryStringStart, u.query.value, ReqQueryString);
    }
  }

  lemma FragmentRuns(u: UrlText)
    requires GoodUrl(u)
    ensures var fragment := Optional("#", u.fragment);
            && UrlState(AfterQuery(u), fragment) != Dead
            && UrlLabels(AfterQuery(u), fragment) == Marked(u.fragment, Fragment)
  {
    hide ParseUrlChar, UrlState, UrlLabels, GoodAuthority;
    UrlNone(AfterQuery(u));
    if u.fragment.Some? {
      FragmentSteps(AfterQuery(u), u.fragment.value);
      DelimitedRun(AfterQuery(u), '#', ReqFragmentStart, u.fragment.value, ReqFragment);
    }
  }

  /** The first pass on the whole text. */
  lemma UrlRuns(u: UrlText)
    requires GoodUrl(u)
    ensures UrlState(ReqSpacesBeforeUrl, UrlBytes(u)) != Dead
    ensures UrlLabels(ReqSpacesBeforeUrl, UrlBytes(u)) ==
              LabelsBefore(u) + Run(Host, |AuthorityBytes(u)|) + LabelsAfter(u)
  {
    hide ParseUrlChar, UrlState, UrlLabels, GoodUrl, AuthorityBytes, LabelsBefore;
    GoodParts(u);
    SchemaRuns(u);
    AuthorityRuns(u);
    PathRuns(u);
    QueryRuns(u);
    FragmentRuns(u);
    var s := ReqSpacesBeforeUrl;
    var a := u.schema + "://";
    UrlConcat(s, a, AuthorityBytes(u));
    UrlConcat(s, a + AuthorityBytes(u), u.path);
    UrlConcat(s, a + AuthorityBytes(u) + u.path, Optional("?", u.query));
    UrlConcat(s, a + AuthorityBytes(u) + u.path + Optional("?", u.query), Optional("#", u.fragment));
  }

  lemma GoodParts(u: UrlText)
    requires GoodUrl(u)
    ensures u.schema != [] && All(IsAlpha, u.schema) && GoodAuthority(u)
  {
  }

  // ----- the second pass

  lemma NameSteps(name: Bytes)
    requires All(IsHostChar, name)
    ensures forall i | 0 <= i < |name| :: ParseHostChar(HostStart, name[i]) == InHost && ParseHostChar(InHost, name[i]) == InHost
  {
  }

  lemma AddressSteps(address: Bytes)
    requires All(IsAddressChar, address)
    ensures ParseHostChar(HostStart, '[') == V6Start
    ensures forall i | 0 <= i < |address| :: ParseHostChar(V6Start, address[i]) == V6 && ParseHostChar(V6, address[i]) == V6
    ensures ParseHostChar(V6, ']') == V6End && ParseHostChar(V6, '%') == V6ZoneStart
    ensures ParseHostChar(V6Zone, ']') == V6End
  {
  }

  lemma ZoneSteps(zone: Bytes)
    requires All(IsZoneChar, zone)
    ensures forall i | 0 <= i < |zone| :: ParseHostChar(V6ZoneStart, zone[i]) == V6Zone && ParseHostChar(V6Zone, zone[i]) == V6Zone
  {
  }

  lemma PortSteps(s: HostState, port: Bytes)
    requires (s == InHost || s == V6End) && All(IsNum, port)
    ensures ParseHostChar(s, ':') == PortStart
    ensures forall i | 0 <= i < |port| :: ParseHostChar(PortStart, port[i]) == InPort && ParseHostChar(InPort, port[i]) == InPort
  {
  }

  lemma UserinfoSteps(userinfo: Bytes)
    requires All(IsUserinfoChar, userinfo)
    ensures forall i | 0 <= i < |userinfo| ::
      ParseHostChar(UserinfoStart, userinfo[i]) == InUserinfo && ParseHostChar(InUserinfo, userinfo[i]) == InUserinfo
    ensures ParseHostChar(InUserinfo, '@') == HostStart
  {
  }

  lemma HostRuns(h: HostText)
    requires GoodHost(h)
    ensures var s := AuthorityState(HostStart, HostBytes(h));
            (s == InHost || s == V6End) && PartLabels(HostStart, HostBytes(h)) == HostLabels(h)
  {
    hide ParseHostChar, AuthorityState, PartLabels;
    match h
    case Name(name) =>
      NameSteps(name);
      PartRun(HostStart, InHost, name);
    case Address(address, zone) =>
      AddressSteps(address);
      PartOne(HostStart, '[');
      PartRun(V6Start, V6, address);
      PartConcat(HostStart, "[", address);
      var inside := "[" + address + Optional("%", zone);
      if zone.Some? {
        ZoneSteps(zone.value);
        PartOne(V6, '%');
        PartRun(V6ZoneStart, V6Zone, zone.value);
        PartConcat(V6, "%", zone.value);
        PartConcat(HostStart, "[" + address, "%" + zone.value);
        assert Run(Host, |address|) + ([Some(Host)] + Run(Host, |zone.value|)) == Run(Host, |address + Optional("%", zone)|);
      } else {
        assert inside == "[" + address;
      }
      PartOne(AuthorityState(HostStart, inside), ']');
      PartConcat(HostStart, inside, "]");
      assert PartLabels(HostStart, inside) == [None] + Run(Host, |address + Optional("%", zone)|);
  }

  /** The second pass on the authority. */
  lemma PartsRun(u: UrlText)
    requires GoodAuthority(u)
    ensures var data := AuthorityBytes(u);
            && AuthorityStart(data) == (if u.userinfo.Some? then UserinfoStart else HostStart)
            && AuthorityEnds(AuthorityState(AuthorityStart(data), data))
            && PartLabels(AuthorityStart(data), data) == AuthorityLabels(u)
  {
    hide ParseHostChar, AuthorityState, PartLabels, HostBytes, HostLabels, GoodHost;
    var data, host, port := AuthorityBytes(u), HostBytes(u.host), Optional(":", u.port);
    AtInAuthority(u);
    HostRuns(u.host);
    var s := AuthorityState(HostStart, host);
    if u.port.Some? {
      PortSteps(s, u.port.value);
      PartOne(s, ':');
      PartRun(PortStart, InPort, u.port.value);
      PartConcat(s, ":", u.port.value);
      PartConcat(HostStart, host, port);
    } else {
      assert host + port == host;
    }
    if u.userinfo.Some? {
      UserinfoSteps(u.userinfo.value);
      PartRun(UserinfoStart, InUserinfo, u.userinfo.value);
      PartOne(InUserinfo, '@');
      PartConcat(UserinfoStart, u.userinfo.value, "@");
      PartConcat(UserinfoStart, u.userinfo.value + "@", host + port);
      assert data == u.userinfo.value + "@" + (host + port);
    } else {
      assert data == host + port;
    }
  }

  lemma AtInAuthority(u: UrlText)
    requires GoodAuthority(u)
    ensures '@' in AuthorityBytes(u) <==> u.userinfo.Some?
  {
    hide HostBytes, GoodAuthority, IsServerChar;
    ServerChars(u);
    NoAt('@');
    var rest := HostBytes(u.host) + Optional(":", u.port);
    if u.userinfo.Some? {
      assert AuthorityBytes(u)[|u.userinfo.value|] == '@';
    } else {
      assert AuthorityBytes(u) == rest;
    }
  }

  lemma NoAt(ch: Byte)
    ensures IsServerChar(ch) ==> ch != '@'
  {
  }

  // ----- the parts come back

  function AllLabels(u: UrlText): seq<Label> { LabelsBefore(u) + AuthorityLabels(u) + LabelsAfter(u) }

  /** Where each part is, counted from the start of the text, of the authority, and from its end. */
  function PlaceBefore(u: UrlText, k: UrlField): Option<Span> { if k == Schema then Some(Span(0, |u.schema|)) else None }

  function PlaceInAuthority(u: UrlText, k: UrlField): Option<Span> {
    var user := if u.userinfo.None? then 0 else |u.userinfo.value| + 1;
    var host := HostLabels(u.host);
    if k == Userinfo && u.userinfo.Some? then Some(Span(0, |u.userinfo.value|))
    else if k == Host then
      match u.host
      case Name(name) => Some(Span(user, |name|))
      case Address(address, zone) => Some(Span(user + 1, |address| + |Optional("%", zone)|))
    else if k == Port && u.port.Some? then Some(Span(user + |host| + 1, |u.port.value|))
    else None
  }

  function PlaceAfter(u: UrlText, k: UrlField): Option<Span> {
    var query := |u.path| + |Marked(u.query, Query)|;
    if k == Path && u.path != [] then Some(Span(0, |u.path|))
    else if k == Query && u.query.Some? && u.query.value != [] then Some(Span(|u.path| + 1, |u.query.value|))
    else if k == Fragment && u.fragment.Some? then Some(Span(query + 1, |u.fragment.value|))
    else None
  }

  predicate Within(place: Option<Span>, i: int) { place.Some? && place.value.off <= i < place.value.End() }

  lemma LabelBefore(u: UrlText, k: UrlField, i: nat)
    requires i < |LabelsBefore(u)|
    ensures LabelsBefore(u)[i] == Some(k) <==> Within(PlaceBefore(u, k), i)
  {
  }

  lemma LabelInAuthority(u: UrlText, k: UrlField, i: nat)
    requires i < |AuthorityLabels(u)|
    ensures AuthorityLabels(u)[i] == Some(k) <==> Within(PlaceInAuthority(u, k), i)
  {
    var user := if u.userinfo.None? then [] else Run(Userinfo, |u.userinfo.value|) + [None];
    var host := HostLabels(u.host);
    assert AuthorityLabels(u) == user + host + Marked(u.port, Port);
    assert AuthorityLabels(u)[i] ==
             if i < |user| then user[i]
             else if i < |user| + |host| then host[i - |user|]
             else Marked(u.port, Port)[i - |user| - |host|];
    LabelInHost(u.host, k);
  }

  lemma LabelInHost(h: HostText, k: UrlField)
    ensures var labels := HostLabels(h);
            forall i | 0 <= i < |labels| ::
              labels[i] == Some(k) <==> k == Host && (h.Name? || 0 < i < |labels| - 1)
  {
  }

  lemma LabelAfter(u: UrlText, k: UrlField, i: nat)
    requires i < |LabelsAfter(u)|
    ensures LabelsAfter(u)[i] == Some(k) <==> Within(PlaceAfter(u, k), i)
  {
    var path, query, fragment := Run(Path, |u.path|), Marked(u.query, Query), Marked(u.fragment, Fragment);
    assert LabelsAfter(u)[i] ==
             if i < |path| then path[i]
             else if i < |path| + |query| then query[i - |path|]
             else fragment[i - |path| - |query|];
  }

  function Shifted(place: Option<Span>, n: nat): Option<Span> {
    if place.None? then None else Some(Span(place.value.off + n, place.value.len))
  }

  /** Where each part is in the text. */
  function Place(u: UrlText, k: UrlField): Option<Span> {
    var before, authority := |LabelsBefore(u)|, |AuthorityBytes(u)|;
    if k == Schema then PlaceBefore(u, k)
    else if k == Userinfo || k == Host || k == Port then Shifted(PlaceInAuthority(u, k), before)
    else Shifted(PlaceAfter(u, k), before + authority)
  }

  lemma AuthorityLength(u: UrlText)
    ensures |AuthorityLabels(u)| == |AuthorityBytes(u)|
  {
  }

  lemma PlacesEnd(u: UrlText, k: UrlField)
    ensures PlaceBefore(u, k).Some? ==> k == Schema && PlaceBefore(u, k).value.End() <= |LabelsBefore(u)|
    ensures PlaceInAuthority(u, k).Some? ==>
              (k == Userinfo || k == Host || k == Port) && PlaceInAuthority(u, k).value.End() <= |AuthorityLabels(u)|
    ensures PlaceAfter(u, k).Some? ==>
              (k == Path || k == Query || k == Fragment) && PlaceAfter(u, k).value.End() <= |LabelsAfter(u)|
  {
  }

  lemma LabelAt(u: UrlText, k: UrlField, i: nat)
    requires i < |AllLabels(u)|
    ensures AllLabels(u)[i] == Some(k) <==> Within(Place(u, k), i)
  {
    hide LabelsBefore, AuthorityLabels, LabelsAfter, PlaceBefore, PlaceInAuthority, PlaceAfter, AuthorityBytes;
    var before, authority := |LabelsBefore(u)|, |AuthorityLabels(u)|;
    AuthorityLength(u);
    PlacesEnd(u, k);
    if i < before {
      LabelBefore(u, k, i);
    } else if i < before + authority {
      LabelInAuthority(u, k, i - before);
    } else {
      LabelAfter(u, k, i - before - authority);
    }
  }

  /** A non-empty range is told by its members. */
  lemma SpanIs(fields: Fields, k: UrlField, place: Span, n: nat)
    requires k in fields && 0 < fields[k].len && fields[k].End() <= n && 0 < place.len && place.End() <= n
    requires forall i | 0 <= i < n :: InField(fields, k, i) <==> Within(Some(place), i)
    ensures fields[k] == place
  {
    var span := fields[k];
    assert InField(fields, k, place.off) && InField(fields, k, place.End() - 1);
    assert Within(Some(place), span.off) && Within(Some(place), span.End() - 1);
  }

  /** A field is there exactly if it has a place, and then there. */
  ghost predicate InPlace(fields: Fields, k: UrlField, place: Option<Span>) {
    (k in fields <==> place.Some?) && (k in fields ==> fields[k] == place.value)
  }

  /** The labels of a field tell whether it is there, and where. */
  lemma FieldIs(fields: Fields, labels: seq<Label>, k: UrlField, place: Option<Span>)
    requires Laid(fields, 0, |labels|) && Labelled(fields, 0, labels)
    requires forall i | 0 <= i < |labels| :: labels[i] == Some(k) <==> Within(place, i)
    requires place.Some? ==> 0 < place.value.len && place.value.End() <= |labels|
    ensures InPlace(fields, k, place)
  {
    hide Rank;
    forall i | 0 <= i < |labels|
      ensures InField(fields, k, i) <==> Within(place, i)
    {
      assert InField(fields, k, i) <==> labels[i - 0] == Some(k);
    }
    if k in fields {
      assert InField(fields, k, fields[k].off);
    }
    if place.Some? {
      assert Within(place, place.value.off);
      SpanIs(fields, k, place.value, |labels|);
    }
  }

  lemma PlaceFits(u: UrlText, k: UrlField)
    requires GoodUrl(u)
    ensures Place(u, k).Some? ==> 0 < Place(u, k).value.len && Place(u, k).value.End() <= |AllLabels(u)|
  {
    AuthorityLength(u);
    PlacesEnd(u, k);
  }

  /** The authority that the first pass finds. */
  lemma AuthorityFound(u: UrlText, authority: Option<Span>)
    requires GoodUrl(u) && AuthorityIs(UrlLabels(ReqSpacesBeforeUrl, UrlBytes(u)), authority)
    ensures authority == Some(Span(|u.schema| + 3, |AuthorityBytes(u)|))
  {
    hide AuthorityBytes, UrlState, UrlLabels, GoodUrl;
    GoodParts(u);
    ServerChars(u);
    UrlRuns(u);
    var labels := UrlLabels(ReqSpacesBeforeUrl, UrlBytes(u));
    var a, b := |u.schema| + 3, |u.schema| + 3 + |AuthorityBytes(u)|;
    forall i | 0 <= i < |labels|
      ensures labels[i] == Some(Host) <==> a <= i < b
    {
      if i >= b {
        LabelAfter(u, Host, i - b);
      }
    }
    AuthorityNotEmpty(u);
    assert labels[a] == Some(Host) && labels[b - 1] == Some(Host);
    assert b < |labels| ==> labels[b] != Some(Host);
    assert labels[a - 1] != Some(Host);
  }

  lemma AuthorityNotEmpty(u: UrlText)
    requires GoodAuthority(u)
    ensures AuthorityBytes(u) != []
  {
  }

  /** Both automata accept the text, and label it as they should. */
  lemma TextSplits(u: UrlText)
    requires GoodUrl(u)
    ensures var authority := Some(Span(|u.schema| + 3, |AuthorityBytes(u)|));
            && Splits(UrlBytes(u), ReqSpacesBeforeUrl, authority)
            && Labels(UrlBytes(u), ReqSpacesBeforeUrl, authority) == AllLabels(u)
  {
    hide AuthorityBytes, UrlState, UrlLabels, AuthorityState, PartLabels, LabelsBefore, AuthorityLabels, LabelsAfter, GoodUrl;
    GoodParts(u);
    UrlRuns(u);
    PartsRun(u);
    AuthorityLength(u);
    BeforeLength(u);
    var buf := UrlBytes(u);
    var before := u.schema + "://";
    assert Text(buf, Span(|before|, |AuthorityBytes(u)|)) == AuthorityBytes(u);
    var first := UrlLabels(ReqSpacesBeforeUrl, buf);
    assert first[..|before|] == LabelsBefore(u);
    assert first[|before| + |AuthorityBytes(u)|..] == LabelsAfter(u);
  }

  lemma BeforeLength(u: UrlText)
    ensures |LabelsBefore(u)| == |u.schema| + 3
  {
  }

  lemma PortIsDigits(u: UrlText)
    requires GoodAuthority(u) && u.port.Some?
    ensures AllDigits(u.port.value)
  {
    assert forall i | 0 <= i < |u.port.value| :: IsNum(u.port.value[i]);
  }

  lemma HostLength(h: HostText)
    ensures |HostLabels(h)| == |HostBytes(h)|
  {
  }

  /** What follows the authority: on its own, the usual target of a request. */
  function TailBytes(u: UrlText): Bytes { u.path + Optional("?", u.query) + Optional("#", u.fragment) }

  /** The text at a place, if there is a place. */
  predicate Reads(buf: Bytes, place: Option<Span>, part: Option<Bytes>) {
    (place.Some? <==> part.Some?) && (place.Some? ==> place.value.End() <= |buf| && Text(buf, place.value) == part.value)
  }

  lemma ReadsMiddle(a: Bytes, b: Bytes, c: Bytes)
    ensures Reads(a + b + c, Some(Span(|a|, |b|)), Some(b))
  {
  }

  /** An empty part has no place. */
  function NotEmpty(part: Bytes): Option<Bytes> { if part == [] then None else Some(part) }

  lemma PathText(u: UrlText, before: Bytes)
    ensures Reads(before + TailBytes(u), Shifted(PlaceAfter(u, Path), |before|), NotEmpty(u.path))
  {
    var rest := Optional("?", u.query) + Optional("#", u.fragment);
    assert before + TailBytes(u) == before + u.path + rest;
    ReadsMiddle(before, u.path, rest);
  }

  lemma QueryText(u: UrlText, before: Bytes)
    ensures Reads(before + TailBytes(u), Shifted(PlaceAfter(u, Query), |before|),
                  if u.query.None? then None else NotEmpty(u.query.value))
  {
    if u.query.Some? {
      var rest := Optional("#", u.fragment);
      assert before + TailBytes(u) == (before + u.path + "?") + u.query.value + rest;
      ReadsMiddle(before + u.path + "?", u.query.value, rest);
    }
  }

  lemma FragmentText(u: UrlText, before: Bytes)
    ensures Reads(before + TailBytes(u), Shifted(PlaceAfter(u, Fragment), |before|), u.fragment)
  {
    if u.fragment.Some? {
      var front := before + u.path + Optional("?", u.query) + "#";
      assert before + TailBytes(u) == front + u.fragment.value + [];
      ReadsMiddle(front, u.fragment.value, []);
    }
  }

  /** A host without its brackets. */
  function HostPart(h: HostText): Bytes { if h.Name? then h.name else h.address + Optional("%", h.zone) }

  lemma UserinfoText(u: UrlText, before: Bytes, after: Bytes)
    ensures Reads(before + AuthorityBytes(u) + after, Shifted(PlaceInAuthority(u, Userinfo), |before|), u.userinfo)
  {
    hide HostBytes, HostLabels;
    if u.userinfo.Some? {
      var rest := "@" + HostBytes(u.host) + Optional(":", u.port) + after;
      assert before + AuthorityBytes(u) + after == before + u.userinfo.value + rest;
      ReadsMiddle(before, u.userinfo.value, rest);
    }
  }

  lemma HostTextRead(u: UrlText, before: Bytes, after: Bytes)
    ensures Reads(before + AuthorityBytes(u) + after, Shifted(PlaceInAuthority(u, Host), |before|), Some(HostPart(u.host)))
  {
    var front := before + if u.userinfo.None? then [] else u.userinfo.value + "@";
    var rest := Optional(":", u.port) + after;
    assert before + AuthorityBytes(u) + after == front + HostBytes(u.host) + rest;
    if u.host.Name? {
      ReadsMiddle(front, u.host.name, rest);
    } else {
      var part := u.host.address + Optional("%", u.host.zone);
      assert HostBytes(u.host) == "[" + part + "]";
      assert front + HostBytes(u.host) + rest == (front + "[") + part + ("]" + rest);
      ReadsMiddle(front + "[", part, "]" + rest);
    }
  }

  lemma PortRead(u: UrlText, before: Bytes, after: Bytes)
    ensures Reads(before + AuthorityBytes(u) + after, Shifted(PlaceInAuthority(u, Port), |before|), u.port)
  {
    HostLength(u.host);
    hide HostBytes, HostLabels;
    if u.port.Some? {
      var front := before + (if u.userinfo.None? then [] else u.userinfo.value + "@") + HostBytes(u.host) + ":";
      assert before + AuthorityBytes(u) + after == front + u.port.value + after;
      ReadsMiddle(front, u.port.value, after);
    }
  }

  /** A field is there exactly if the part is, and is the part. */
  ghost predicate FieldReads(fields: Fields, k: UrlField, buf: Bytes, part: Option<Bytes>) {
    && (k in fields <==> part.Some?)
    && (k in fields ==> fields[k].End() <= |buf| && buf[fields[k].off..fields[k].End()] == part.value)
  }

  lemma ReadInPlace(fields: Fields, k: UrlField, place: Option<Span>, buf: Bytes, part: Option<Bytes>)
    requires InPlace(fields, k, place) && Reads(buf, place, part)
    ensures FieldReads(fields, k, buf, part)
  {
  }

  /** Where the parts are, they read as the parts. */
  lemma AllRead(u: UrlText)
    ensures var buf := UrlBytes(u);
            && Reads(buf, Place(u, Schema), Some(u.schema))
            && Reads(buf, Place(u, Userinfo), u.userinfo) && Reads(buf, Place(u, Host), Some(HostPart(u.host)))
            && Reads(buf, Place(u, Port), u.port) && Reads(buf, Place(u, Path), NotEmpty(u.path))
            && Reads(buf, Place(u, Query), if u.query.None? then None else NotEmpty(u.query.value))
            && Reads(buf, Place(u, Fragment), u.fragment)
  {
    hide Reads, PlaceInAuthority, PlaceAfter, AuthorityBytes;
    BeforeLength(u);
    var buf, front := UrlBytes(u), u.schema + "://";
    assert buf == [] + u.schema + ("://" + AuthorityBytes(u) + TailBytes(u));
    ReadsMiddle([], u.schema, "://" + AuthorityBytes(u) + TailBytes(u));
    assert buf == front + AuthorityBytes(u) + TailBytes(u);
    UserinfoText(u, front, TailBytes(u));
    HostTextRead(u, front, TailBytes(u));
    PortRead(u, front, TailBytes(u));
    PathText(u, front + AuthorityBytes(u));
    QueryText(u, front + AuthorityBytes(u));
    FragmentText(u, front + AuthorityBytes(u));
  }

  /** Splitting a text gives each of its parts, as long as the port fits 16 bits. */
  method SplitText(u: UrlText) returns (ok: bool, url: HttpParserUrl)
    requires GoodUrl(u) && |UrlBytes(u)| <= 0xFFFF
    ensures u.port.Some? ==> AllDigits(u.port.value)
    ensures ok <==> u.port.Some? ==> Decimal(0, u.port.value) <= 0xFFFF
    ensures ok ==> forall k :: InPlace(url.fields, k, Place(u, k))
    ensures ok ==>
      && FieldReads(url.fields, Schema, UrlBytes(u), Some(u.schema)) && FieldReads(url.fields, Userinfo, UrlBytes(u), u.userinfo)
      && FieldReads(url.fields, Host, UrlBytes(u), Some(HostPart(u.host)))
      && FieldReads(url.fields, Port, UrlBytes(u), u.port) && FieldReads(url.fields, Path, UrlBytes(u), NotEmpty(u.path))
      && FieldReads(url.fields, Query, UrlBytes(u), if u.query.None? then None else NotEmpty(u.query.value))
      && FieldReads(url.fields, Fragment, UrlBytes(u), u.fragment)
    ensures ok ==> url.port == if u.port.Some? then Decimal(0, u.port.value) else 0
  {
    hide UrlState, UrlLabels, Labels, GoodUrl, UrlBytes, AllLabels, Place;
    url := new HttpParserUrl();
    ghost var authority;
    ok, authority := url.ParseUrl(UrlBytes(u), false);
    TextSplits(u);
    AuthorityFound(u, authority);
    forall k
      ensures InPlace(url.fields, k, Place(u, k))
    {
      PlaceFits(u, k);
      forall i | 0 <= i < |AllLabels(u)|
        ensures AllLabels(u)[i] == Some(k) <==> Within(Place(u, k), i)
      {
        LabelAt(u, k, i);
      }
      FieldIs(url.fields, AllLabels(u), k, Place(u, k));
    }
    PortPlaced(u);
    AllInPlace(u, url.fields);
  }

  lemma AllInPlace(u: UrlText, fields: Fields)
    requires forall k :: InPlace(fields, k, Place(u, k))
    ensures var buf := UrlBytes(u);
            && FieldReads(fields, Schema, buf, Some(u.schema)) && FieldReads(fields, Userinfo, buf, u.userinfo)
            && FieldReads(fields, Host, buf, Some(HostPart(u.host))) && FieldReads(fields, Port, buf, u.port)
            && FieldReads(fields, Path, buf, NotEmpty(u.path))
            && FieldReads(fields, Query, buf, if u.query.None? then None else NotEmpty(u.query.value))
            && FieldReads(fields, Fragment, buf, u.fragment)
  {
    hide UrlBytes, Place, InPlace, Reads, FieldReads, NotEmpty, HostPart;
    var buf := UrlBytes(u);
    AllRead(u);
    assert InPlace(fields, Schema, Place(u, Schema)) && InPlace(fields, Userinfo, Place(u, Userinfo));
    assert InPlace(fields, Host, Place(u, Host)) && InPlace(fields, Port, Place(u, Port));
    assert InPlace(fields, Path, Place(u, Path)) && InPlace(fields, Query, Place(u, Query));
    assert InPlace(fields, Fragment, Place(u, Fragment));
    ReadInPlace(fields, Schema, Place(u, Schema), buf, Some(u.schema));
    ReadInPlace(fields, Userinfo, Place(u, Userinfo), buf, u.userinfo);
    ReadInPlace(fields, Host, Place(u, Host), buf, Some(HostPart(u.host)));
    ReadInPlace(fields, Port, Place(u, Port), buf, u.port);
    ReadInPlace(fields, Path, Place(u, Path), buf, NotEmpty(u.path));
    ReadInPlace(fields, Query, Place(u, Query), buf, if u.query.None? then None else NotEmpty(u.query.value));
    ReadInPlace(fields, Fragment, Place(u, Fragment), buf, u.fragment);
  }

  lemma PortPlaced(u: UrlText)
    requires GoodUrl(u)
    ensures Place(u, Port).Some? <==> u.port.Some?
    ensures u.port.Some? ==>
              && AllDigits(u.port.value) && Place(u, Port).value.End() <= |UrlBytes(u)|
              && Text(UrlBytes(u), Place(u, Port).value) == u.port.value
  {
    AllRead(u);
    if u.port.Some? {
      PortIsDigits(u);
    }
  }

  // ----- the path alone

  lemma TailRuns(u: UrlText)
    requires GoodUrl(u) && u.path != []
    ensures TailBytes(u) != [] && UrlState(ReqSpacesBeforeUrl, TailBytes(u)) != Dead
    ensures UrlLabels(ReqSpacesBeforeUrl, TailBytes(u)) == LabelsAfter(u)
  {
    hide UrlState, UrlLabels, GoodAuthority;
    PathSteps(u.path);
    assert ParseUrlChar(ReqSpacesBeforeUrl, u.path[0]) == ReqPath;
    hide ParseUrlChar;
    UrlRun(ReqSpacesBeforeUrl, ReqPath, u.path);
    QueryRuns(u);
    FragmentRuns(u);
    UrlConcat(ReqSpacesBeforeUrl, u.path, Optional("?", u.query));
    UrlConcat(ReqSpacesBeforeUrl, u.path + Optional("?", u.query), Optional("#", u.fragment));
  }

  /** No byte of it is labelled as part of a schema or a host. */
  lemma NoAuthority(u: UrlText, authority: Option<Span>)
    requires GoodUrl(u) && u.path != [] && AuthorityIs(UrlLabels(ReqSpacesBeforeUrl, TailBytes(u)), authority)
    ensures authority == None && Splits(TailBytes(u), ReqSpacesBeforeUrl, authority)
    ensures Labels(TailBytes(u), ReqSpacesBeforeUrl, authority) == LabelsAfter(u)
  {
    hide UrlState, UrlLabels, GoodAuthority, LabelsAfter;
    TailRuns(u);
    forall i | 0 <= i < |LabelsAfter(u)|
      ensures LabelsAfter(u)[i] != Some(Host) && LabelsAfter(u)[i] != Some(Schema)
    {
      LabelAfter(u, Host, i);
      LabelAfter(u, Schema, i);
    }
    FirstOfAuthority(LabelsAfter(u), authority);
  }

  lemma FirstOfAuthority(labels: seq<Label>, authority: Option<Span>)
    requires AuthorityIs(labels, authority)
    ensures authority.Some? ==> authority.value.off < |labels| && labels[authority.value.off] == Some(Host)
  {
  }

  /** Splitting a path, a query and a fragment gives each of them, and nothing else. */
  method SplitTail(u: UrlText) returns (ok: bool, url: HttpParserUrl)
    requires GoodUrl(u) && u.path != [] && |TailBytes(u)| <= 0xFFFF
    ensures ok && url.port == 0
    ensures forall k :: InPlace(url.fields, k, PlaceAfter(u, k))
    ensures url.fields.Keys <= {Path, Query, Fragment} && FieldReads(url.fields, Path, TailBytes(u), Some(u.path))
    ensures FieldReads(url.fields, Query, TailBytes(u), if u.query.None? then None else NotEmpty(u.query.value))
    ensures FieldReads(url.fields, Fragment, TailBytes(u), u.fragment)
  {
    hide UrlState, UrlLabels, Labels, GoodUrl, TailBytes, LabelsAfter, PlaceAfter;
    url := new HttpParserUrl();
    TailRuns(u);
    ghost var authority;
    ok, authority := url.ParseUrl(TailBytes(u), false);
    NoAuthority(u, authority);
    forall k
      ensures InPlace(url.fields, k, PlaceAfter(u, k))
    {
      TailFits(u, k);
      forall i | 0 <= i < |LabelsAfter(u)|
        ensures LabelsAfter(u)[i] == Some(k) <==> Within(PlaceAfter(u, k), i)
      {
        LabelAfter(u, k, i);
      }
      FieldIs(url.fields, LabelsAfter(u), k, PlaceAfter(u, k));
    }
    PlacesEnd(u, Port);
    TailInPlace(u, url.fields);
  }

  lemma TailInPlace(u: UrlText, fields: Fields)
    requires forall k :: InPlace(fields, k, PlaceAfter(u, k))
    ensures var buf := TailBytes(u);
            && fields.Keys <= {Path, Query, Fragment} && FieldReads(fields, Path, buf, NotEmpty(u.path))
            && FieldReads(fields, Query, buf, if u.query.None? then None else NotEmpty(u.query.value))
            && FieldReads(fields, Fragment, buf, u.fragment)
  {
    hide PlaceAfter, TailBytes, NotEmpty;
    assert [] + TailBytes(u) == TailBytes(u);
    PathText(u, []);
    QueryText(u, []);
    FragmentText(u, []);
    assert InPlace(fields, Path, PlaceAfter(u, Path)) && InPlace(fields, Query, PlaceAfter(u, Query));
    assert InPlace(fields, Fragment, PlaceAfter(u, Fragment));
    forall k | k in fields
      ensures k in {Path, Query, Fragment}
    {
      PlacesEnd(u, k);
      assert InPlace(fields, k, PlaceAfter(u, k));
    }
  }

  lemma TailFits(u: UrlText, k: UrlField)
    requires GoodUrl(u)
    ensures PlaceAfter(u, k).Some? ==> 0 < PlaceAfter(u, k).value.len && PlaceAfter(u, k).value.End() <= |LabelsAfter(u)|
  {
    PlacesEnd(u, k);
  }

  // ----- the authority alone

  /** The whole text is the authority. */
  lemma AuthorityAlone(u: UrlText, authority: Option<Span>)
    requires GoodAuthority(u) && AuthorityBytes(u) != []
    requires AuthorityIs(UrlLabels(ReqServerStart, AuthorityBytes(u)), authority)
    ensures authority.Some? && Splits(AuthorityBytes(u), ReqServerStart, authority)
    ensures Labels(AuthorityBytes(u), ReqServerStart, authority) == AuthorityLabels(u)
  {
    hide UrlState, UrlLabels, AuthorityState, PartLabels, AuthorityBytes, AuthorityLabels, GoodAuthority;
    AuthorityRuns(u);
    PartsRun(u);
    AuthorityLength(u);
    var data := AuthorityBytes(u);
    WholeAuthority(Run(Host, |data|), authority);
    assert Text(data, authority.value) == data;
  }

  lemma WholeAuthority(labels: seq<Label>, authority: Option<Span>)
    requires AuthorityIs(labels, authority) && labels != [] && forall i | 0 <= i < |labels| :: labels[i] == Some(Host)
    ensures authority == Some(Span(0, |labels|))
  {
    assert labels[0] == Some(Host) && labels[|labels| - 1] == Some(Host);
  }

  lemma AuthorityFits(u: UrlText, k: UrlField)
    requires GoodAuthority(u)
    ensures PlaceInAuthority(u, k).Some? ==>
              0 < PlaceInAuthority(u, k).value.len && PlaceInAuthority(u, k).value.End() <= |AuthorityLabels(u)|
    ensures PlaceInAuthority(u, Host).Some?
    ensures PlaceInAuthority(u, Port).Some? <==> u.port.Some?
    ensures PlaceInAuthority(u, Userinfo).Some? <==> u.userinfo.Some?
  {
    PlacesEnd(u, k);
  }

  /** The target of a CONNECT request, an authority alone, is accepted exactly if it is a host and a port that
      fits 16 bits, and is split into these. */
  method SplitConnect(u: UrlText) returns (ok: bool, url: HttpParserUrl)
    requires GoodAuthority(u) && |AuthorityBytes(u)| <= 0xFFFF
    ensures u.port.Some? ==> AllDigits(u.port.value)
    ensures ok <==> u.userinfo.None? && u.port.Some? && Decimal(0, u.port.value) <= 0xFFFF
    ensures ok ==> url.fields.Keys == {Host, Port} && url.port == Decimal(0, u.port.value)
    ensures ok ==> Some(url.fields[Host]) == PlaceInAuthority(u, Host) && Some(url.fields[Port]) == PlaceInAuthority(u, Port)
    ensures ok ==> FieldReads(url.fields, Host, AuthorityBytes(u), Some(HostPart(u.host)))
    ensures ok ==> FieldReads(url.fields, Port, AuthorityBytes(u), u.port)
  {
    hide UrlState, UrlLabels, Labels, GoodAuthority, AuthorityBytes, AuthorityLabels, PlaceInAuthority;
    url := new HttpParserUrl();
    AuthorityNotEmpty(u);
    AuthorityRuns(u);
    ghost var authority;
    ok, authority := url.ParseUrl(AuthorityBytes(u), true);
    AuthorityAlone(u, authority);
    forall k
      ensures InPlace(url.fields, k, PlaceInAuthority(u, k))
    {
      AuthorityFits(u, k);
      forall i | 0 <= i < |AuthorityLabels(u)|
        ensures AuthorityLabels(u)[i] == Some(k) <==> Within(PlaceInAuthority(u, k), i)
      {
        LabelInAuthority(u, k, i);
      }
      FieldIs(url.fields, AuthorityLabels(u), k, PlaceInAuthority(u, k));
    }
    ConnectFields(u, url.fields);
  }

  lemma ConnectFields(u: UrlText, fields: Fields)
    requires GoodAuthority(u) && forall k :: InPlace(fields, k, PlaceInAuthority(u, k))
    ensures fields.Keys == {Host, Port} <==> u.userinfo.None? && u.port.Some?
    ensures u.port.Some? ==>
              && Port in fields && AllDigits(u.port.value)
              && fields[Port].End() <= |AuthorityBytes(u)| && Text(AuthorityBytes(u), fields[Port]) == u.port.value
    ensures FieldReads(fields, Host, AuthorityBytes(u), Some(HostPart(u.host)))
    ensures FieldReads(fields, Port, AuthorityBytes(u), u.port)
  {
    hide GoodAuthority, AuthorityBytes, HostLabels, PlaceInAuthority, HostPart;
    assert [] + AuthorityBytes(u) + [] == AuthorityBytes(u);
    HostTextRead(u, [], []);
    PortRead(u, [], []);
    assert InPlace(fields, Userinfo, PlaceInAuthority(u, Userinfo));
    assert InPlace(fields, Host, PlaceInAuthority(u, Host));
    assert InPlace(fields, Port, PlaceInAuthority(u, Port));
    AuthorityFits(u, Port);
    forall k | k != Userinfo && k != Host && k != Port
      ensures k !in fields
    {
      PlacesEnd(u, k);
      assert InPlace(fields, k, PlaceInAuthority(u, k));
    }
    if u.port.Some? {
      PortIsDigits(u);
    }
  }
}
