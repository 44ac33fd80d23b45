/** Splitting a URL into fields, in two passes: the URL automaton of the parser finds the parts,
    and a second automaton takes the authority part apart. */
module HttpUrl {
  import opened Wrappers
  import opened HttpTypes
  import opened HttpMachine
  import opened HttpNumbers

  datatype UrlField = Schema | Userinfo | Host | Port | Path | Query | Fragment

  /** The order of the fields in a URL. */
  function Rank(field: UrlField): nat {
    match field
    case Schema => 0 case Userinfo => 1 case Host => 2 case Port => 3 case Path => 4 case Query => 5 case Fragment => 6
  }

  datatype Span = Span(off: nat, len: nat) {
    function End(): nat { off + len }
  }

  type Fields = map<UrlField, Span>

  datatype HostState =
    | HostDead
    | UserinfoStart | InUserinfo
    | HostStart | V6Start | InHost | V6 | V6End | V6ZoneStart | V6Zone
    | PortStart | InPort

  predicate IsZoneChar(ch: Byte) { IsAlphaNum(ch) || ch in "%.-_~" }

  function ParseHostChar(s: HostState, ch: Byte): HostState {
    match s
    case UserinfoStart | InUserinfo =>
      if ch == '@' then HostStart else if IsUserinfoChar(ch) then InUserinfo else HostDead
    case HostStart => if ch == '[' then V6Start else if IsHostChar(ch) then InHost else HostDead
    case InHost => if IsHostChar(ch) then InHost else if ch == ':' then PortStart else HostDead
    case V6End => if ch == ':' then PortStart else HostDead
    case V6 =>
      if ch == ']' then V6End else if IsHex(ch) || ch == ':' || ch == '.' then V6
      else if ch == '%' then V6ZoneStart else HostDead
    case V6Start => if IsHex(ch) || ch == ':' || ch == '.' then V6 else HostDead
    case V6Zone => if ch == ']' then V6End else if IsZoneChar(ch) then V6Zone else HostDead
    case V6ZoneStart => if IsZoneChar(ch) then V6Zone else HostDead
    case PortStart | InPort => if IsNum(ch) then InPort else HostDead
    case HostDead => HostDead
  }

  // ----- fields as a labelling of the bytes

  /** The fields are non-empty parts of the bytes from base to end, do not overlap, and come in the
      order of a URL. */
  ghost predicate Laid(fields: Fields, base: nat, end: nat) {
    && (forall k | k in fields :: 0 < fields[k].len && base <= fields[k].off && fields[k].End() <= end)
    && (forall j, k | j in fields && k in fields && Rank(j) < Rank(k) :: fields[j].End() <= fields[k].off)
  }

  predicate InField(fields: Fields, k: UrlField, i: nat) {
    k in fields && fields[k].off <= i < fields[k].End()
  }

  /** Which bytes are in which field: `labels[0]` is for the byte at `base`. */
  ghost predicate Labelled(fields: Fields, base: nat, labels: seq<Option<UrlField>>) {
    forall i, k | base <= i < base + |labels| :: InField(fields, k, i) <==> labels[i - base] == Some(k)
  }

  /** One more byte of a field that ends at n, or the first of a new one. */
  function Extended(fields: Fields, field: UrlField, n: nat): Fields {
    if field in fields then fields[field := Span(fields[field].off, fields[field].len + 1)]
    else fields[field := Span(n, 1)]
  }

  lemma ExtendedLaid(fields: Fields, field: UrlField, base: nat, n: nat)
    requires base <= n && Laid(fields, base, n)
    requires field in fields ==> fields[field].End() == n
    requires forall k | k in fields && k != field :: Rank(k) < Rank(field)
    ensures Laid(Extended(fields, field, n), base, n + 1)
  {
    hide Rank;
  }

  lemma ExtendedLabelled(fields: Fields, field: UrlField, base: nat, labels: seq<Option<UrlField>>)
    requires Laid(fields, base, base + |labels|) && Labelled(fields, base, labels)
    requires field in fields ==> fields[field].End() == base + |labels|
    ensures Labelled(Extended(fields, field, base + |labels|), base, labels + [Some(field)])
  {
    var n := base + |labels|;
    var fields' := Extended(fields, field, n);
    forall i, k | base <= i < n + 1
      ensures InField(fields', k, i) <==> (labels + [Some(field)])[i - base] == Some(k)
    {
      if i < n {
        assert InField(fields, k, i) <==> labels[i - base] == Some(k);
      }
    }
  }

  lemma SkippedLabelled(fields: Fields, base: nat, labels: seq<Option<UrlField>>)
    requires Laid(fields, base, base + |labels|) && Labelled(fields, base, labels)
    ensures Labelled(fields, base, labels + [None])
    ensures Laid(fields, base, base + |labels| + 1)
  {
    forall i, k | base <= i < base + |labels| + 1
      ensures InField(fields, k, i) <==> (labels + [None])[i - base] == Some(k)
    {
      if i < base + |labels| {
        assert InField(fields, k, i) <==> labels[i - base] == Some(k);
      }
    }
  }

  /** What both passes keep: the last field set is at most `last`, and the field that the automaton
      is in, if any, ends here. */
  ghost predicate Kept(fields: Fields, base: nat, labels: seq<Option<UrlField>>, last: int, at: Option<UrlField>) {
    && Laid(fields, base, base + |labels|) && Labelled(fields, base, labels)
    && (forall k | k in fields :: Rank(k) <= last)
    && (at.Some? ==> at.value in fields && fields[at.value].End() == base + |labels|)
  }

  function Next(fields: Fields, at: Option<UrlField>, n: nat): Fields {
    if at.Some? then Extended(fields, at.value, n) else fields
  }

  /** One byte more: it goes on with the field, begins a later one, or is in none. */
  lemma KeptStep(fields: Fields, base: nat, labels: seq<Option<UrlField>>, last: int, at: Option<UrlField>,
                 last': int, at': Option<UrlField>)
    requires Kept(fields, base, labels, last, at) && last <= last'
    requires at'.Some? ==> Rank(at'.value) == last' && (at == at' || last < last')
    ensures Kept(Next(fields, at', base + |labels|), base, labels + [at'], last', at')
  {
    hide Laid, Labelled;
    if at'.Some? {
      RanksDiffer(fields, at'.value, last);
      ExtendedLaid(fields, at'.value, base, base + |labels|);
      ExtendedLabelled(fields, at'.value, base, labels);
    } else {
      SkippedLabelled(fields, base, labels);
    }
  }

  lemma RanksDiffer(fields: Fields, field: UrlField, last: int)
    requires forall k | k in fields :: Rank(k) <= last
    requires last <= Rank(field)
    ensures forall k | k in fields && k != field :: Rank(k) < Rank(field)
  {
  }

  // ----- the first pass

  predicate AtField(s: State) {
    s.ReqSchema? || s.ReqServer? || s.ReqServerWithAt? || s.ReqPath? || s.ReqQueryString? || s.ReqFragment?
  }

  /** The field that a state is in. Until the second pass the whole authority is the host field. */
  function FieldAt(s: State): (k: UrlField)
    requires AtField(s)
    ensures k != Userinfo && k != Port
  {
    if s.ReqSchema? then Schema else if s.ReqPath? then Path else if s.ReqQueryString? then Query
    else if s.ReqFragment? then Fragment else Host
  }

  function UrlLabel(s: State): Option<UrlField> { if AtField(s) then Some(FieldAt(s)) else None }

  /** The automaton on a whole input, and the labels it gives to the bytes. */
  function UrlState(start: State, data: Bytes): State {
    if data == [] then start else ParseUrlChar(UrlState(start, data[..|data| - 1]), data[|data| - 1])
  }

  function UrlLabels(start: State, data: Bytes): (r: seq<Option<UrlField>>)
    ensures |r| == |data|
  {
    if data == [] then [] else UrlLabels(start, data[..|data| - 1]) + [UrlLabel(UrlState(start, data))]
  }

  lemma UrlSnoc(start: State, buf: Bytes, n: nat)
    requires n < |buf|
    ensures UrlState(start, buf[..n + 1]) == ParseUrlChar(UrlState(start, buf[..n]), buf[n])
    ensures UrlLabels(start, buf[..n + 1]) ==
              UrlLabels(start, buf[..n]) + [UrlLabel(UrlState(start, buf[..n + 1]))]
  {
    assert buf[..n + 1][..n] == buf[..n];
  }

  lemma {:induction false} DeadStaysDead(s: State, data: Bytes, n: nat)
    requires n <= |data| && UrlState(s, data[..n]) == Dead
    ensures UrlState(s, data) == Dead
    decreases |data| - n
  {
    if n < |data| {
      UrlSnoc(s, data, n);
      DeadStaysDead(s, data, n + 1);
    } else {
      assert data[..n] == data;
    }
  }

  /** The last field that can be set when the first pass is in a state. */
  function LastRank(s: State): int {
    if AtField(s) then Rank(FieldAt(s))
    else if s.ReqSpacesBeforeUrl? then -1
    else if s.ReqSchemaSlash? || s.ReqSchemaSlashSlash? || s.ReqServerStart? then 0
    else if s.ReqQueryStringStart? then 4 else 5
  }

  predicate IsDelimiter(ch: Byte) { ch in ":/?#@[]" }

  /** A byte goes on with a field, begins a later one, or is a delimiter. */
  lemma UrlTransition(s: State, ch: Byte)
    requires s.ReqSpacesBeforeUrl? || InUrl(s)
    ensures var t := ParseUrlChar(s, ch);
            var at := UrlLabel(t);
            t != Dead ==>
              && LastRank(s) <= LastRank(t)
              && (at.Some? ==> Rank(at.value) == LastRank(t) && (UrlLabel(s) == at || LastRank(s) < LastRank(t)))
              && (at.None? ==> IsDelimiter(ch))
  {
    LabelTransition(s, ch);
    DelimiterTransition(s, ch);
    hide ParseUrlChar;
    LastRankOfLabel(s);
    LastRankOfLabel(ParseUrlChar(s, ch));
  }

  lemma LastRankOfLabel(s: State)
    ensures UrlLabel(s).Some? ==> Rank(UrlLabel(s).value) == LastRank(s)
  {
  }

  lemma LabelTransition(s: State, ch: Byte)
    requires s.ReqSpacesBeforeUrl? || InUrl(s)
    ensures var t := ParseUrlChar(s, ch);
            t != Dead ==>
              && LastRank(s) <= LastRank(t)
              && (AtField(t) ==> UrlLabel(s) == UrlLabel(t) || LastRank(s) < LastRank(t))
  {
    hide IsUserinfoChar, IsUrlChar, IsAlpha;
  }

  lemma DelimiterTransition(s: State, ch: Byte)
    requires s.ReqSpacesBeforeUrl? || InUrl(s)
    ensures var t := ParseUrlChar(s, ch);
            t != Dead && !AtField(t) ==> IsDelimiter(ch)
  {
    hide IsUserinfoChar, IsUrlChar, IsAlpha;
  }

  /** What the first pass keeps, after n bytes. */
  ghost predicate Split(buf: Bytes, n: nat, start: State, fields: Fields)
    requires n <= |buf|
  {
    var s := UrlState(start, buf[..n]);
    Kept(fields, 0, UrlLabels(start, buf[..n]), LastRank(s), UrlLabel(s)) && Userinfo !in fields && Port !in fields
  }

  lemma SplitStep(buf: Bytes, n: nat, start: State, fields: Fields)
    requires n < |buf| && Split(buf, n, start, fields)
    requires var s := UrlState(start, buf[..n]); s.ReqSpacesBeforeUrl? || InUrl(s)
    ensures var t := UrlState(start, buf[..n + 1]);
            t == Dead || Split(buf, n + 1, start, Next(fields, UrlLabel(t), n))
  {
    hide ParseUrlChar, Kept, LastRank, UrlState, UrlLabels, AtField, FieldAt;
    var s, t := UrlState(start, buf[..n]), UrlState(start, buf[..n + 1]);
    UrlSnoc(start, buf, n);
    UrlTransition(s, buf[n]);
    if t != Dead {
      KeptStep(fields, 0, UrlLabels(start, buf[..n]), LastRank(s), UrlLabel(s), LastRank(t), UrlLabel(t));
    }
  }

  lemma SplitNothing(buf: Bytes, start: State)
    requires start == ReqSpacesBeforeUrl || start == ReqServerStart
    ensures Split(buf, 0, start, map[])
  {
  }

  // ----- the second pass

  predicate AtPart(s: HostState) { s.InUserinfo? || s.InHost? || s.V6? || s.V6ZoneStart? || s.V6Zone? || s.InPort? }

  function PartAt(s: HostState): UrlField
    requires AtPart(s)
  {
    if s.InUserinfo? then Userinfo else if s.InPort? then Port else Host
  }

  function PartLabel(s: HostState): Option<UrlField> { if AtPart(s) then Some(PartAt(s)) else None }

  function AuthorityState(start: HostState, data: Bytes): HostState {
    if data == [] then start else ParseHostChar(AuthorityState(start, data[..|data| - 1]), data[|data| - 1])
  }

  function PartLabels(start: HostState, data: Bytes): (r: seq<Option<UrlField>>)
    ensures |r| == |data|
  {
    if data == [] then [] else PartLabels(start, data[..|data| - 1]) + [PartLabel(AuthorityState(start, data))]
  }

  lemma PartSnoc(start: HostState, data: Bytes, n: nat)
    requires n < |data|
    ensures AuthorityState(start, data[..n + 1]) == ParseHostChar(AuthorityState(start, data[..n]), data[n])
    ensures PartLabels(start, data[..n + 1]) ==
              PartLabels(start, data[..n]) + [PartLabel(AuthorityState(start, data[..n + 1]))]
  {
    assert data[..n + 1][..n] == data[..n];
  }

  lemma {:induction false} HostDeadStaysDead(s: HostState, data: Bytes, n: nat)
    requires n <= |data| && AuthorityState(s, data[..n]) == HostDead
    ensures AuthorityState(s, data) == HostDead
    decreases |data| - n
  {
    if n < |data| {
      PartSnoc(s, data, n);
      HostDeadStaysDead(s, data, n + 1);
    } else {
      assert data[..n] == data;
    }
  }

  /** Where an authority may end. */
  predicate AuthorityEnds(s: HostState) { s == InHost || s == V6End || s == InPort }

  function LastPart(s: HostState): int {
    if AtPart(s) then Rank(PartAt(s))
    else if s.UserinfoStart? then 0 else if s.HostStart? || s.V6Start? then 1 else 2
  }

  /** Once the host has begun. */
  predicate HasHost(s: HostState) {
    s.InHost? || s.V6? || s.V6End? || s.V6ZoneStart? || s.V6Zone? || s.PortStart? || s.InPort?
  }

  lemma HostTransition(s: HostState, ch: Byte)
    ensures var t := ParseHostChar(s, ch);
            var at := PartLabel(t);
            t != HostDead ==>
              && LastPart(s) <= LastPart(t)
              && (at.Some? ==> Rank(at.value) == LastPart(t) && (PartLabel(s) == at || LastPart(s) < LastPart(t)))
              && (at.None? ==> IsDelimiter(ch))
              && (HasHost(t) <==> HasHost(s) || at == Some(Host))
  {
    hide IsUserinfoChar, IsHostChar, IsHex, IsZoneChar;
  }

  /** What the second pass keeps, after n bytes of the authority, which begins at `base`. */
  ghost predicate Parted(base: nat, data: Bytes, n: nat, start: HostState, parts: Fields)
    requires n <= |data|
  {
    var s := AuthorityState(start, data[..n]);
    && Kept(parts, base, PartLabels(start, data[..n]), LastPart(s), PartLabel(s))
    && (HasHost(s) <==> Host in parts) && parts.Keys <= {Userinfo, Host, Port}
  }

  lemma PartStep(base: nat, data: Bytes, n: nat, start: HostState, parts: Fields)
    requires n < |data| && Parted(base, data, n, start, parts)
    ensures var t := AuthorityState(start, data[..n + 1]);
            t == HostDead || Parted(base, data, n + 1, start, Next(parts, PartLabel(t), base + n))
  {
    hide ParseHostChar, Kept, LastPart, AuthorityState, PartLabels, HasHost;
    var s, t := AuthorityState(start, data[..n]), AuthorityState(start, data[..n + 1]);
    PartSnoc(start, data, n);
    HostTransition(s, data[n]);
    if t != HostDead {
      KeptStep(parts, base, PartLabels(start, data[..n]), LastPart(s), PartLabel(s), LastPart(t), PartLabel(t));
    }
  }

  lemma PartedNothing(base: nat, data: Bytes, start: HostState)
    requires start == UserinfoStart || start == HostStart
    ensures Parted(base, data, 0, start, map[])
  {
  }

  // ----- what is in no field

  lemma {:induction false} UrlDelimiters(start: State, buf: Bytes, i: nat)
    requires start.ReqSpacesBeforeUrl? || InUrl(start)
    requires UrlState(start, buf) != Dead && i < |buf| && UrlLabels(start, buf)[i] == None
    ensures IsDelimiter(buf[i])
    decreases |buf|
  {
    hide ParseUrlChar;
    var n := |buf| - 1;
    UrlSnoc(start, buf, n);
    assert buf[..n + 1] == buf;
    LiveBefore(start, buf, n);
    if i == n {
      UrlTransition(UrlState(start, buf[..n]), buf[n]);
    } else {
      UrlDelimiters(start, buf[..n], i);
    }
  }

  lemma LiveBefore(start: State, buf: Bytes, n: nat)
    requires start.ReqSpacesBeforeUrl? || InUrl(start)
    requires UrlState(start, buf) != Dead && n <= |buf|
    ensures UrlState(start, buf[..n]) != Dead
    ensures UrlState(start, buf[..n]) == start || InUrl(UrlState(start, buf[..n]))
  {
    hide ParseUrlChar;
    if UrlState(start, buf[..n]) == Dead {
      DeadStaysDead(start, buf, n);
    }
    if n > 0 {
      UrlSnoc(start, buf, n - 1);
    }
  }

  lemma {:induction false} PartDelimiters(start: HostState, data: Bytes, i: nat)
    requires AuthorityState(start, data) != HostDead && i < |data| && PartLabels(start, data)[i] == None
    ensures IsDelimiter(data[i])
    decreases |data|
  {
    hide ParseHostChar;
    var n := |data| - 1;
    PartSnoc(start, data, n);
    assert data[..n + 1] == data;
    if i == n {
      HostTransition(AuthorityState(start, data[..n]), data[n]);
    } else {
      if AuthorityState(start, data[..n]) == HostDead {
        HostDeadStaysDead(start, data, n);
      }
      PartDelimiters(start, data[..n], i);
    }
  }

  // ----- the parser

  /** `s_http_userinfo_start` if there is an '@' in the authority. */
  function AuthorityStart(data: Bytes): HostState { if '@' in data then UserinfoStart else HostStart }

  lemma RankInjective(j: UrlField, k: UrlField)
    requires Rank(j) == Rank(k)
    ensures j == k
  {
  }

  /** `old_uf`: the field that was begun last. */
  ghost predicate LastIs(fields: Fields, oldUf: Option<UrlField>) {
    if oldUf.None? then fields == map[]
    else oldUf.value in fields && forall k | k in fields :: Rank(k) <= Rank(oldUf.value)
  }

  /** The field of the byte is the last one begun exactly when it is already set. */
  lemma LastBegun(buf: Bytes, n: nat, start: State, fields: Fields, s: State, oldUf: Option<UrlField>)
    requires n < |buf| && s == UrlState(start, buf[..n]) && (s.ReqSpacesBeforeUrl? || InUrl(s))
    requires Split(buf, n, start, fields) && LastIs(fields, oldUf)
    ensures var t := ParseUrlChar(s, buf[n]);
            t != Dead && AtField(t) ==>
              && (oldUf == Some(FieldAt(t)) <==> FieldAt(t) in fields)
              && LastIs(Extended(fields, FieldAt(t), n), Some(FieldAt(t)))
              && (FieldAt(t) in fields ==> fields[FieldAt(t)].End() == n)
  {
    hide ParseUrlChar, UrlState, UrlLabels, Laid, Labelled, AtField, FieldAt;
    var t := ParseUrlChar(s, buf[n]);
    if t != Dead && AtField(t) {
      UrlTransition(s, buf[n]);
      var uf := FieldAt(t);
      if uf in fields {
        assert Rank(uf) <= Rank(oldUf.value);
        RankInjective(uf, oldUf.value);
      }
    }
  }

  lemma StateOfNothing(start: State, buf: Bytes)
    ensures UrlState(start, buf[..0]) == start
  {
  }

  /** The host grows by one byte, or another field does. */
  lemma AtGrows(buf: Bytes, fields: Fields, uf: UrlField, p: nat)
    requires p < |buf| && (uf in fields ==> fields[uf].End() == p) && (Host in fields ==> fields[Host].End() <= p)
    ensures AtIn(buf, Extended(fields, uf, p)) == (AtIn(buf, fields) || (uf == Host && buf[p] == '@'))
  {
    if uf == Host {
      if Host in fields {
        var off := fields[Host].off;
        assert buf[off..p + 1] == buf[off..p] + [buf[p]];
      } else {
        assert buf[p..p + 1] == [buf[p]];
      }
    }
  }

  ghost predicate AtIn(buf: Bytes, fields: Fields) {
    Host in fields && fields[Host].End() <= |buf| && '@' in buf[fields[Host].off..fields[Host].End()]
  }

  lemma AtSign(s: State, ch: Byte)
    requires s.ReqSpacesBeforeUrl? || InUrl(s)
    ensures var t := ParseUrlChar(s, ch);
            (t == ReqServerWithAt ==> ch == '@') && (t == ReqServer ==> ch != '@')
  {
    hide IsUserinfoChar, IsUrlChar, IsAlpha;
  }

  /** What the loop of the first pass keeps. */
  ghost predicate FirstPass(buf: Bytes, p: nat, start: State, s: State, fields: Fields, oldUf: Option<UrlField>, foundAt: bool)
    requires p <= |buf|
  {
    && s == UrlState(start, buf[..p]) && (s.ReqSpacesBeforeUrl? || InUrl(s))
    && Split(buf, p, start, fields) && LastIs(fields, oldUf)
    && (Host in fields ==> fields[Host].End() <= p)
    && foundAt == AtIn(buf, fields)
  }

  lemma FirstPassByte(buf: Bytes, p: nat, start: State, s: State, fields: Fields, oldUf: Option<UrlField>, foundAt: bool)
    requires p < |buf| && FirstPass(buf, p, start, s, fields, oldUf, foundAt)
    ensures var t := ParseUrlChar(s, buf[p]);
            && (t == Dead ==> UrlState(start, buf) == Dead)
            && (t != Dead && !AtField(t) ==> FirstPass(buf, p + 1, start, t, fields, oldUf, foundAt))
            && (t != Dead && AtField(t) ==>
                  && (oldUf == Some(FieldAt(t)) <==> FieldAt(t) in fields)
                  && FirstPass(buf, p + 1, start, t, Extended(fields, FieldAt(t), p), Some(FieldAt(t)),
                               foundAt || t == ReqServerWithAt))
  {
    hide ParseUrlChar, UrlState, Split, LastIs, AtIn, Extended;
    var t := ParseUrlChar(s, buf[p]);
    UrlSnoc(start, buf, p);
    if t == Dead {
      DeadStaysDead(start, buf, p + 1);
    } else {
      SplitStep(buf, p, start, fields);
      LastBegun(buf, p, start, fields, s, oldUf);
      AtSign(s, buf[p]);
      if AtField(t) {
        AtGrows(buf, fields, FieldAt(t), p);
        HostGrows(fields, FieldAt(t), p);
      }
    }
  }

  lemma FirstPassBegins(buf: Bytes, start: State)
    requires start == ReqSpacesBeforeUrl || start == ReqServerStart
    ensures FirstPass(buf, 0, start, start, map[], None, false)
  {
    SplitNothing(buf, start);
    StateOfNothing(start, buf);
  }

  lemma FirstPassEnds(buf: Bytes, start: State, s: State, fields: Fields, oldUf: Option<UrlField>, foundAt: bool)
    requires FirstPass(buf, |buf|, start, s, fields, oldUf, foundAt)
    ensures UrlState(start, buf) != Dead && Split(buf, |buf|, start, fields) && foundAt == AtIn(buf, fields)
  {
    assert buf[..|buf|] == buf;
  }

  lemma HostGrows(fields: Fields, uf: UrlField, p: nat)
    requires (uf in fields ==> fields[uf].End() == p) && (Host in fields ==> fields[Host].End() <= p)
    ensures var fields' := Extended(fields, uf, p);
            Host in fields' ==> fields'[Host].End() <= p + 1
  {
  }

  lemma AuthorityOfNothing(start: HostState, data: Bytes)
    ensures AuthorityState(start, data[..0]) == start
  {
  }

  /** The struct during the second pass: the host keeps its offset and has no length until it
      begins. */
  function Merged(rest: Fields, found: Fields, off: nat): Fields {
    (if Host in found then rest else rest[Host := Span(off, 0)]) + found
  }

  lemma MergedNothing(rest: Fields, off: nat)
    ensures Merged(rest, map[], off) == rest[Host := Span(off, 0)]
  {
  }

  lemma MergedAll(rest: Fields, found: Fields, off: nat)
    ensures Host in found ==> Merged(rest, found, off) == rest + found
  {
  }

  lemma MergedExtends(rest: Fields, found: Fields, off: nat, k: UrlField, p: nat)
    requires k == Host || k == Port || k == Userinfo
    requires Host !in rest && Port !in rest && Userinfo !in rest
    ensures var m := Merged(rest, found, off);
            var e := Merged(rest, Extended(found, k, p), off);
            && (k in found ==> k in m && e == m[k := Span(m[k].off, m[k].len + 1)])
            && (k !in found ==> e == m[k := Span(p, 1)] && (k == Host ==> k in m && m[k].len == 0))
  {
  }

  lemma HostFirst(s: HostState, ch: Byte)
    ensures var t := ParseHostChar(s, ch);
            && (t == InHost || t == V6 ==> (HasHost(s) <==> s == t))
            && (t == V6ZoneStart || t == V6Zone ==> HasHost(s))
            && (t == InPort ==> s == t || LastPart(s) == 2)
            && (t == InUserinfo ==> s == t || LastPart(s) == 0)
  {
    hide IsUserinfoChar, IsHostChar, IsHex, IsZoneChar;
  }

  /** Which part is already set, as the second pass tells from its last state. */
  predicate Tells(s: HostState, t: HostState, found: Fields) {
    && (t == InHost || t == V6 ==> (Host in found <==> s == t))
    && (t == V6ZoneStart || t == V6Zone ==> Host in found)
    && (t == InPort ==> (Port in found <==> s == t))
    && (t == InUserinfo ==> (Userinfo in found <==> s == t))
  }

  /** What the loop of the second pass keeps. */
  ghost predicate SecondPass(off: nat, data: Bytes, n: nat, start: HostState, s: HostState, found: Fields)
    requires n <= |data|
  {
    s == AuthorityState(start, data[..n]) && Parted(off, data, n, start, found)
  }

  lemma SecondPassByte(off: nat, data: Bytes, n: nat, start: HostState, s: HostState, found: Fields)
    requires n < |data| && SecondPass(off, data, n, start, s, found)
    ensures var t := ParseHostChar(s, data[n]);
            && (t == HostDead ==> AuthorityState(start, data) == HostDead)
            && (t != HostDead ==>
                  Tells(s, t, found) && SecondPass(off, data, n + 1, start, t, Next(found, PartLabel(t), off + n)))
  {
    hide ParseHostChar, AuthorityState, PartLabels, Laid, Labelled;
    var t := ParseHostChar(s, data[n]);
    PartSnoc(start, data, n);
    if t == HostDead {
      HostDeadStaysDead(start, data, n + 1);
    } else {
      TellsApart(off, data, n, start, s, found);
      hide Parted;
      PartStep(off, data, n, start, found);
    }
  }

  lemma TellsApart(off: nat, data: Bytes, n: nat, start: HostState, s: HostState, found: Fields)
    requires n < |data| && SecondPass(off, data, n, start, s, found)
    ensures Tells(s, ParseHostChar(s, data[n]), found)
  {
    hide ParseHostChar, AuthorityState, PartLabels, Laid, Labelled, LastPart, HasHost;
    HostFirst(s, data[n]);
  }

  lemma SecondPassBegins(off: nat, data: Bytes, start: HostState)
    requires start == UserinfoStart || start == HostStart
    ensures SecondPass(off, data, 0, start, start, map[])
  {
    PartedNothing(off, data, start);
    AuthorityOfNothing(start, data);
  }

  lemma SecondPassEnds(off: nat, data: Bytes, start: HostState, s: HostState, found: Fields)
    requires SecondPass(off, data, |data|, start, s, found)
    ensures s == AuthorityState(start, data) && Parted(off, data, |data|, start, found)
    ensures AuthorityEnds(s) ==> Host in found
  {
    assert data[..|data|] == data;
  }

  lemma {:induction false} DecimalGrows(digits: Bytes, n: nat)
    requires AllDigits(digits) && n <= |digits|
    ensures Decimal(0, digits[..n]) <= Decimal(0, digits)
    decreases |digits| - n
  {
    if n < |digits| {
      assert digits[..n + 1][..n] == digits[..n];
      DecimalGrows(digits, n + 1);
    } else {
      assert digits[..n] == digits;
    }
  }

  function Text(buf: Bytes, span: Span): Bytes
    requires span.End() <= |buf|
  {
    buf[span.off..span.End()]
  }

  /** The fields are non-empty, lie inside the input, do not overlap, come in the order of a URL,
      and what is in none of them is a delimiter. */
  ghost predicate Fitting(buf: Bytes, fields: Fields) {
    && Laid(fields, 0, |buf|)
    && forall i | 0 <= i < |buf| :: IsDelimiter(buf[i]) || exists k :: InField(fields, k, i)
  }

  /** The label of each byte: the second automaton's in the authority, the first's elsewhere. */
  function Labels(buf: Bytes, start: State, authority: Option<Span>): (r: seq<Option<UrlField>>)
    requires authority.Some? ==> authority.value.End() <= |buf|
    ensures |r| == |buf|
  {
    var first := UrlLabels(start, buf);
    if authority.None? then first
    else
      var data := Text(buf, authority.value);
      first[..authority.value.off] + PartLabels(AuthorityStart(data), data) + first[authority.value.End()..]
  }

  lemma LabelsAlone(buf: Bytes, start: State)
    ensures Labels(buf, start, None) == UrlLabels(start, buf)
  {
  }

  predicate Authoritative(buf: Bytes, authority: Span) {
    authority.End() <= |buf| && AuthorityEnds(AuthorityState(AuthorityStart(Text(buf, authority)), Text(buf, authority)))
  }

  function Begin(isConnect: bool): State { if isConnect then ReqServerStart else ReqSpacesBeforeUrl }

  /** Both automata accept, and a schema has a host. */
  ghost predicate Splits(buf: Bytes, start: State, authority: Option<Span>) {
    && buf != [] && UrlState(start, buf) != Dead
    && (Some(Schema) in UrlLabels(start, buf) ==> authority.Some?)
    && (authority.Some? ==> Authoritative(buf, authority.value))
  }

  lemma LabelsDelimit(buf: Bytes, start: State, authority: Option<Span>, i: nat)
    requires start.ReqSpacesBeforeUrl? || InUrl(start)
    requires UrlState(start, buf) != Dead && (authority.Some? ==> Authoritative(buf, authority.value))
    requires i < |buf| && Labels(buf, start, authority)[i] == None
    ensures IsDelimiter(buf[i])
  {
    hide UrlState, UrlLabels, AuthorityState, PartLabels;
    if authority.Some? && authority.value.off <= i < authority.value.End() {
      var data := Text(buf, authority.value);
      PartDelimiters(AuthorityStart(data), data, i - authority.value.off);
    } else {
      UrlDelimiters(start, buf, i);
    }
  }

  lemma LabelledFits(buf: Bytes, start: State, authority: Option<Span>, fields: Fields)
    requires start.ReqSpacesBeforeUrl? || InUrl(start)
    requires UrlState(start, buf) != Dead && (authority.Some? ==> Authoritative(buf, authority.value))
    requires Laid(fields, 0, |buf|) && Labelled(fields, 0, Labels(buf, start, authority))
    ensures Fitting(buf, fields)
  {
    hide UrlState, Labels, Laid;
    forall i | 0 <= i < |buf|
      ensures IsDelimiter(buf[i]) || exists k :: InField(fields, k, i)
    {
      var mark := Labels(buf, start, authority)[i];
      if mark == None {
        LabelsDelimit(buf, start, authority, i);
      } else {
        assert InField(fields, mark.value, i);
      }
    }
  }

  /** The parts of the authority take the place of the authority. */
  lemma Combined(buf: Bytes, start: State, fields: Fields, found: Fields)
    requires Split(buf, |buf|, start, fields) && Host in fields && fields[Host].End() <= |buf|
    requires var data := Text(buf, fields[Host]);
             Parted(fields[Host].off, data, |data|, AuthorityStart(data), found)
    ensures Laid(fields - {Host} + found, 0, |buf|)
    ensures Labelled(fields - {Host} + found, 0, Labels(buf, start, Some(fields[Host])))
  {
    hide UrlLabels, PartLabels, Laid, Labelled;
    var data := Text(buf, fields[Host]);
    assert buf[..|buf|] == buf && data[..|data|] == data;
    CombinedLaid(fields, found, |buf|);
    CombinedLabelled(fields, found, UrlLabels(start, buf), PartLabels(AuthorityStart(data), data));
  }

  lemma CombinedLabelled(fields: Fields, found: Fields, first: seq<Option<UrlField>>, second: seq<Option<UrlField>>)
    requires Host in fields && Userinfo !in fields && Port !in fields && found.Keys <= {Userinfo, Host, Port}
    requires Laid(fields, 0, |first|) && Labelled(fields, 0, first)
    requires fields[Host].len == |second|
    requires Laid(found, fields[Host].off, fields[Host].End()) && Labelled(found, fields[Host].off, second)
    ensures Labelled(fields - {Host} + found, 0, first[..fields[Host].off] + second + first[fields[Host].End()..])
  {
    var host := fields[Host];
    var all := fields - {Host} + found;
    var labels := first[..host.off] + second + first[host.End()..];
    forall i, k | 0 <= i < |labels|
      ensures InField(all, k, i) <==> labels[i] == Some(k)
    {
      Apart(fields, found, |first|, k, i);
      if host.off <= i < host.End() {
        assert InField(fields, Host, i) && first[i] == Some(Host);
        assert InField(found, k, i) <==> second[i - host.off] == Some(k);
        assert InField(fields, k, i) <==> first[i] == Some(k);
      } else {
        assert InField(fields, k, i) <==> first[i] == Some(k);
        assert !InField(fields, Host, i);
      }
    }
  }

  /** A byte is in a part exactly when it is in the authority, and then in no other field. */
  lemma Apart(fields: Fields, found: Fields, end: nat, k: UrlField, i: nat)
    requires Host in fields && Userinfo !in fields && Port !in fields && found.Keys <= {Userinfo, Host, Port}
    requires Laid(fields, 0, end) && Laid(found, fields[Host].off, fields[Host].End())
    ensures InField(found, k, i) ==> InField(fields, Host, i)
    ensures InField(fields - {Host} + found, k, i) <==> InField(found, k, i) || (k != Host && InField(fields, k, i))
  {
    hide Rank;
  }

  /** What is in the port is digits. */
  lemma {:induction false} PortDigit(start: HostState, data: Bytes, i: nat)
    requires AuthorityState(start, data) != HostDead && i < |data| && PartLabels(start, data)[i] == Some(Port)
    ensures IsNum(data[i])
    decreases |data|
  {
    var n := |data| - 1;
    if i == n {
      InPortIsDigit(AuthorityState(start, data[..n]), data[n]);
    } else {
      hide ParseHostChar;
      PartSnoc(start, data, n);
      assert data[..n + 1] == data;
      if AuthorityState(start, data[..n]) == HostDead {
        HostDeadStaysDead(start, data, n);
      }
      PortDigit(start, data[..n], i);
    }
  }

  lemma InPortIsDigit(s: HostState, ch: Byte)
    requires ParseHostChar(s, ch) == InPort
    ensures IsNum(ch)
  {
  }

  lemma PortDigits(buf: Bytes, fields: Fields, found: Fields)
    requires Host in fields && fields[Host].End() <= |buf|
    requires var data := Text(buf, fields[Host]);
             AuthorityState(AuthorityStart(data), data) != HostDead &&
             Parted(fields[Host].off, data, |data|, AuthorityStart(data), found)
    ensures Port in found ==> found[Port].End() <= |buf| && AllDigits(Text(buf, found[Port]))
  {
    if Port !in found {
      return;
    }
    var data, base := Text(buf, fields[Host]), fields[Host].off;
    assert data[..|data|] == data;
    forall i | found[Port].off <= i < found[Port].End()
      ensures IsNum(buf[i])
    {
      assert InField(found, Port, i);
      PortDigit(AuthorityStart(data), data, i - base);
    }
  }

  lemma CombinedLaid(fields: Fields, found: Fields, end: nat)
    requires Laid(fields, 0, end) && Host in fields && Userinfo !in fields && Port !in fields
    requires Laid(found, fields[Host].off, fields[Host].End()) && found.Keys <= {Userinfo, Host, Port}
    ensures Laid(fields - {Host} + found, 0, end)
  {
    var all := fields - {Host} + found;
    forall j, k | j in all && k in all && Rank(j) < Rank(k)
      ensures all[j].End() <= all[k].off
    {
      if j in found && k !in found {
        assert fields[Host].End() <= fields[k].off by { assert Rank(Host) < Rank(k); }
      } else if j !in found && k in found {
        assert fields[j].End() <= fields[Host].off by { assert Rank(j) < Rank(Host); }
      }
    }
  }

  /** The authority is the bytes that the first pass labels as the host. */
  ghost predicate AuthorityIs(labels: seq<Option<UrlField>>, authority: Option<Span>) {
    && (authority.Some? ==> 0 < authority.value.len && authority.value.End() <= |labels|)
    && forall i | 0 <= i < |labels| ::
         labels[i] == Some(Host) <==> authority.Some? && authority.value.off <= i < authority.value.End()
  }

  ghost predicate PortFits(buf: Bytes, fields: Fields) {
    Port in fields ==>
      && fields[Port].End() <= |buf| && AllDigits(Text(buf, fields[Port]))
      && Decimal(0, Text(buf, fields[Port])) <= 0xFFFF
  }

  lemma SplitFacts(buf: Bytes, start: State, fields: Fields)
    requires Split(buf, |buf|, start, fields)
    ensures Userinfo !in fields && Port !in fields && Laid(fields, 0, |buf|)
    ensures Labelled(fields, 0, UrlLabels(start, buf))
    ensures AuthorityIs(UrlLabels(start, buf), if Host in fields then Some(fields[Host]) else None)
    ensures Schema in fields <==> Some(Schema) in UrlLabels(start, buf)
    ensures Host in fields ==> fields[Host].End() <= |buf|
  {
    hide UrlLabels;
    assert buf[..|buf|] == buf;
    var labels := UrlLabels(start, buf);
    forall i | 0 <= i < |labels|
      ensures labels[i] == Some(Host) <==> InField(fields, Host, i)
      ensures labels[i] == Some(Schema) ==> Schema in fields
    {
      assert InField(fields, Schema, i) <==> labels[i] == Some(Schema);
    }
    if Schema in fields {
      assert InField(fields, Schema, fields[Schema].off);
    }
  }

  class HttpParserUrl {
    var fields: Fields
    var port: nat

    constructor ()
      ensures fields == map[] && port == 0
    {
      fields, port := map[], 0;
    }

    /** The first pass: the parts of the URL, with the whole authority as the host. */
    method SplitFields(buf: Bytes, isConnect: bool) returns (ok: bool, foundAt: bool)
      modifies this`fields
      ensures ok == (UrlState(Begin(isConnect), buf) != Dead)
      ensures ok ==> Split(buf, |buf|, Begin(isConnect), fields)
      ensures ok ==> foundAt == AtIn(buf, fields)
    {
      hide ParseUrlChar, UrlState, FirstPass, AtField, FieldAt;
      var s := Begin(isConnect);
      ghost var start := s;
      var oldUf: Option<UrlField> := None;
      foundAt := false;
      fields := map[];
      var p := 0;
      FirstPassBegins(buf, start);
      while p < |buf|
        invariant p <= |buf| && FirstPass(buf, p, start, s, fields, oldUf, foundAt)
      {
        FirstPassByte(buf, p, start, s, fields, oldUf, foundAt);
        s := ParseUrlChar(s, buf[p]);
        if s == Dead {
          return false, false;
        }
        if AtField(s) {
          var uf := FieldAt(s);
          foundAt := foundAt || s == ReqServerWithAt;
          if Some(uf) == oldUf {
            fields := fields[uf := Span(fields[uf].off, fields[uf].len + 1)];
          } else {
            fields := fields[uf := Span(p, 1)];
            oldUf := Some(uf);
          }
        }
        p := p + 1;
      }
      FirstPassEnds(buf, start, s, fields, oldUf, foundAt);
      ok := true;
    }

    /** One byte of the authority: it goes on with the part of the last state, or begins one. */
    method Extend(s: HostState, newS: HostState, p: nat, ghost rest: Fields, ghost found: Fields, ghost off: nat)
      requires fields == Merged(rest, found, off) && Host !in rest && Userinfo !in rest && Port !in rest
      requires Tells(s, newS, found)
      modifies this`fields
      ensures fields == Merged(rest, Next(found, PartLabel(newS), p), off)
    {
      hide Merged, Extended;
      if AtPart(newS) {
        MergedExtends(rest, found, off, PartAt(newS), p);
      }
      match newS {
        case InHost =>
          if s != InHost {
            fields := fields[Host := Span(p, fields[Host].len)];
          }
          fields := fields[Host := Span(fields[Host].off, fields[Host].len + 1)];
        case V6 =>
          if s != V6 {
            fields := fields[Host := Span(p, fields[Host].len)];
          }
          fields := fields[Host := Span(fields[Host].off, fields[Host].len + 1)];
        case V6ZoneStart =>
          fields := fields[Host := Span(fields[Host].off, fields[Host].len + 1)];
        case V6Zone =>
          fields := fields[Host := Span(fields[Host].off, fields[Host].len + 1)];
        case InPort =>
          if s != InPort {
            fields := fields[Port := Span(p, 0)];
          }
          fields := fields[Port := Span(fields[Port].off, fields[Port].len + 1)];
        case InUserinfo =>
          if s != InUserinfo {
            fields := fields[Userinfo := Span(p, 0)];
          }
          fields := fields[Userinfo := Span(fields[Userinfo].off, fields[Userinfo].len + 1)];
        case _ =>
      }
    }

    /** The second pass: the parts of the authority. `found` are they. */
    method ParseHost(buf: Bytes, foundAt: bool) returns (ok: bool, ghost found: Fields)
      requires Host in fields && fields[Host].End() <= |buf| && Userinfo !in fields && Port !in fields
      modifies this`fields
      ensures var host := old(fields)[Host];
              var data := buf[host.off..host.End()];
              var start := if foundAt then UserinfoStart else HostStart;
              && ok == AuthorityEnds(AuthorityState(start, data))
              && (ok ==> Parted(host.off, data, |data|, start, found) && Host in found)
      ensures ok ==> fields == old(fields) - {Host} + found
    {
      hide ParseHostChar, AuthorityState, SecondPass, Parted, Merged, Tells;
      var off, end := fields[Host].off, fields[Host].End();
      ghost var data, rest := buf[off..end], fields - {Host};
      fields := fields[Host := Span(off, 0)];
      var s := if foundAt then UserinfoStart else HostStart;
      ghost var start := s;
      found := map[];
      SecondPassBegins(off, data, start);
      MergedNothing(rest, off);
      var p := off;
      while p < end
        invariant off <= p <= end && SecondPass(off, data, p - off, start, s, found)
        invariant fields == Merged(rest, found, off)
      {
        SecondPassByte(off, data, p - off, start, s, found);
        var newS := ParseHostChar(s, buf[p]);
        if newS == HostDead {
          return false, found;
        }
        Extend(s, newS, p, rest, found, off);
        found := Next(found, PartLabel(newS), p);
        s := newS;
        p := p + 1;
      }
      SecondPassEnds(off, data, start, s, found);
      MergedAll(rest, found, off);
      ok := AuthorityEnds(s);
    }

    /** The number that the port is, unless it is larger than 16 bits hold. */
    method ParsePort(digits: Bytes) returns (ok: bool)
      requires AllDigits(digits)
      modifies this`port
      ensures ok == (Decimal(0, digits) <= 0xFFFF)
      ensures ok ==> port == Decimal(0, digits)
    {
      var v := 0;
      var p := 0;
      while p < |digits|
        invariant p <= |digits| && v == Decimal(0, digits[..p]) && v <= 0xFFFF
      {
        assert digits[..p + 1][..p] == digits[..p];
        v := v * 10;
        v := v + Digit(digits[p]);
        if v > 0xFFFF {
          DecimalGrows(digits, p + 1);
          return false;
        }
        p := p + 1;
      }
      assert digits[..p] == digits;
      port := v;
      ok := true;
    }

    /** `parse_url`. A URL is accepted exactly when both automata accept, a schema has a host, a
        CONNECT target is a host and a port, and the port fits 16 bits. Then the fields are what
        the automata say. */
    method ParseUrl(buf: Bytes, isConnect: bool) returns (ok: bool, ghost authority: Option<Span>)
      requires |buf| <= 0xFFFF
      modifies this
      ensures ok <==>
                && Splits(buf, Begin(isConnect), authority)
                && (isConnect ==> fields.Keys == {Host, Port}) && PortFits(buf, fields)
      ensures buf != [] && UrlState(Begin(isConnect), buf) != Dead ==>
                AuthorityIs(UrlLabels(Begin(isConnect), buf), authority)
      ensures Splits(buf, Begin(isConnect), authority) ==>
                Fitting(buf, fields) && Labelled(fields, 0, Labels(buf, Begin(isConnect), authority))
      ensures ok && Schema in fields ==> Host in fields
      ensures ok ==> if Port in fields then port == Decimal(0, Text(buf, fields[Port])) <= 0xFFFF else port == 0
    {
      hide UrlState, UrlLabels, Labels, Laid, Labelled, Split, Parted, AuthorityState, Fitting;
      authority := None;
      ghost var start := Begin(isConnect);
      if |buf| == 0 {
        return false, None;
      }
      port, fields := 0, map[];
      var foundAt;
      ok, foundAt := SplitFields(buf, isConnect);
      if !ok {
        return false, None;
      }
      SplitFacts(buf, start, fields);
      ghost var first := fields;
      authority := if Host in fields then Some(fields[Host]) else None;
      if Schema in fields && Host !in fields {
        return false, authority;
      }
      if Host in fields {
        ghost var found;
        ok, found := ParseHost(buf, foundAt);
        if !ok {
          return false, authority;
        }
        Combined(buf, start, first, found);
        PortDigits(buf, first, found);
      } else {
        LabelsAlone(buf, start);
      }
      LabelledFits(buf, start, authority, fields);
      if isConnect && fields.Keys != {Host, Port} {
        return false, authority;
      }
      if Port in fields {
        ok := ParsePort(Text(buf, fields[Port]));
      }
    }
  }
}
