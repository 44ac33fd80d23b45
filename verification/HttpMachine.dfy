/** The byte-at-a-time form of the parser: what one input byte does in each state.
    A transition that does not consume its byte (the C `goto reexecute`) is `Again`. */
module HttpMachine {
  import opened HttpTypes

  /** What a transition does to the data marks and which callback it runs. */
  datatype Effect =
    | Quiet
    | Mark(kind: DataKind)                 // open a span at the current byte, unless it is open
    | Flush(kind: DataKind)                // report the open span, without the current byte
    | MarkAndFlush(kind: DataKind)         // report an empty span at the current byte
    | MarkAndFlushThrough(kind: DataKind)  // report a span that ends with the current byte
    | Notify(event: Event)

  datatype Step =
    | Consume(parser: Parser, effect: Effect)  // go on with the next byte
    | Again(parser: Parser, effect: Effect)    // look at the same byte in the new state
    | Leave(parser: Parser, effect: Effect)    // consume the byte and return: the protocol changes
    | Fail(errno: Errno)                       // stop at this byte

  // ----- the URL automaton

  predicate InUrl(state: State) {
    state.ReqSchema? || state.ReqSchemaSlash? || state.ReqSchemaSlashSlash? || state.ReqServerStart?
    || state.ReqServer? || state.ReqServerWithAt? || state.ReqPath? || state.ReqQueryStringStart?
    || state.ReqQueryString? || state.ReqFragmentStart? || state.ReqFragment?
  }

  function ParseUrlChar(s: State, ch: Byte): (r: State)
    ensures r == Dead || InUrl(r)
  {
    if ch == ' ' || ch == CR || ch == LF then Dead
    else match s
      case ReqSpacesBeforeUrl =>
        if ch == '/' || ch == '*' then ReqPath else if IsAlpha(ch) then ReqSchema else Dead
      case ReqSchema =>
        if IsAlpha(ch) then ReqSchema else if ch == ':' then ReqSchemaSlash else Dead
      case ReqSchemaSlash => if ch == '/' then ReqSchemaSlashSlash else Dead
      case ReqSchemaSlashSlash => if ch == '/' then ReqServerStart else Dead
      case ReqServerWithAt | ReqServerStart | ReqServer =>
        if s == ReqServerWithAt && ch == '@' then Dead
        else if ch == '/' then ReqPath
        else if ch == '?' then ReqQueryStringStart
        else if ch == '@' then ReqServerWithAt
        else if IsUserinfoChar(ch) || ch == '[' || ch == ']' then ReqServer
        else Dead
      case ReqPath =>
        if IsUrlChar(ch) then ReqPath
        else if ch == '?' then ReqQueryStringStart else if ch == '#' then ReqFragmentStart else Dead
      case ReqQueryStringStart | ReqQueryString =>
        if IsUrlChar(ch) || ch == '?' then ReqQueryString else if ch == '#' then ReqFragmentStart else Dead
      case ReqFragmentStart =>
        if IsUrlChar(ch) || ch == '?' then ReqFragment else if ch == '#' then ReqFragmentStart else Dead
      case ReqFragment => if IsUrlChar(ch) || ch == '?' || ch == '#' then ReqFragment else Dead
      case _ => Dead
  }

  // ----- message length

  predicate NeedsEof(s: Parser) {
    if s.kind == Request then false
    else if s.statusCode / 100 == 1 || s.statusCode == 204 || s.statusCode == 304 || s.flags.skipBody then false
    else if s.flags.transferEncoding && !s.flags.chunked then true
    else if s.flags.chunked || s.contentLength != ULLONG_MAX then false
    else true
  }

  predicate ShouldKeepAlive(s: Parser) {
    if s.httpMajor > 0 && s.httpMinor > 0 then
      !s.flags.connectionClose && !NeedsEof(s)
    else
      s.flags.connectionKeepAlive && !NeedsEof(s)
  }

  function StartState(kind: ParserType): State { if kind == Request then StartReq else StartRes }

  // ----- start line of a response

  function StartMessage(s: Parser): Parser { s.(flags := NO_FLAGS, contentLength := ULLONG_MAX) }

  function Start(s: Parser, ch: Byte): Step {
    if s.state.ResOrRespH? then
      if ch == 'T' then Consume(s.(kind := Response, state := ResHT), Quiet)
      else if ch != 'E' then Fail(InvalidConstant)
      else Consume(s.(kind := Request, verb := HEAD, index := 2, state := ReqMethod), Quiet)
    else if ch == CR || ch == LF then Consume(s, Quiet)
    else if s.state.StartReqOrRes? then
      if ch == 'H' then Consume(StartMessage(s).(state := ResOrRespH), Notify(MessageBegin))
      else Again(StartMessage(s).(kind := Request, state := StartReq), Quiet)
    else if s.state.StartRes? then
      if ch == 'H' then Consume(StartMessage(s).(state := ResH), Notify(MessageBegin)) else Fail(InvalidConstant)
    else Fail(ClosedConnection)  // Dead
  }

  function ResponseVersion(s: Parser, ch: Byte): Step {
    if s.state.ResHttpMajor? then
      if IsNum(ch) then Consume(s.(httpMajor := Digit(ch), state := ResHttpDot), Quiet) else Fail(InvalidVersion)
    else if s.state.ResHttpMinor? then
      if IsNum(ch) then Consume(s.(httpMinor := Digit(ch), state := ResHttpEnd), Quiet) else Fail(InvalidVersion)
    else if (s.state.ResHttpDot? && ch != '.') || (s.state.ResHttpEnd? && ch != ' ') then Fail(InvalidVersion)
    else
      var next :=
        if s.state.ResH? then ResHT else if s.state.ResHT? then ResHTT else if s.state.ResHTT? then ResHTTP
        else if s.state.ResHTTP? then ResHttpMajor else if s.state.ResHttpDot? then ResHttpMinor
        else ResFirstStatusCode;
      Consume(s.(state := next), Quiet)
  }

  function StatusLine(s: Parser, ch: Byte): Step {
    if s.state.ResFirstStatusCode? then
      if IsNum(ch) then Consume(s.(statusCode := Digit(ch), state := ResStatusCode), Quiet)
      else if ch == ' ' then Consume(s, Quiet)
      else Fail(InvalidStatus)
    else if s.state.ResStatusCode? then
      if IsNum(ch) then
        var code := s.statusCode * 10 + Digit(ch);
        if code > 999 then Fail(InvalidStatus) else Consume(s.(statusCode := code), Quiet)
      else if ch == ' ' then Consume(s.(state := ResStatusStart), Quiet)
      else if ch == CR || ch == LF then Again(s.(state := ResStatusStart), Quiet)
      else Fail(InvalidStatus)
    else if s.state.ResStatusStart? then
      var s' := s.(state := ResStatus, index := 0);
      if ch == CR || ch == LF then Again(s', Mark(StatusData)) else Consume(s', Mark(StatusData))
    else if s.state.ResStatus? then
      if ch == CR then Consume(s.(state := ResLineAlmostDone), Flush(StatusData))
      else if ch == LF then Consume(s.(state := HeaderFieldStart), Flush(StatusData))
      else Consume(s, Quiet)
    else Consume(s.(state := HeaderFieldStart), Quiet)  // ResLineAlmostDone
  }

  // ----- request line

  /** The method a first letter stands for, before any later letter decides otherwise. */
  function FirstMethod(ch: Byte): (m: int)
    ensures -1 <= m < METHODS
  {
    match ch
    case 'A' => 19 case 'B' => 16 case 'C' => CONNECT case 'D' => 0 case 'G' => 1
    case 'H' => HEAD case 'L' => 9 case 'M' => 10 case 'N' => 25 case 'O' => 6
    case 'P' => 3 case 'R' => 20 case 'S' => 26 case 'T' => 7 case 'U' => 15
    case _ => -1
  }

  /** Where the letters so far fit two methods: the method chosen at `index` by `ch`. */
  function SwitchMethod(verb: nat, index: nat, ch: Byte): (m: int)
    ensures -1 <= m < METHODS
    ensures 0 <= m ==> index < |MethodName(m)|
  {
    if verb == 3 && index == 1 && ch == 'U' then 4          // POST, PUT
    else if verb == 3 && index == 1 && ch == 'A' then 28    // POST, PATCH
    else if verb == 3 && index == 1 && ch == 'R' then 12    // POST, PROPFIND
    else if verb == 4 && index == 2 && ch == 'R' then 29    // PUT, PURGE
    else if verb == 5 && index == 1 && ch == 'H' then 22    // CONNECT, CHECKOUT
    else if verb == 5 && index == 2 && ch == 'P' then 8     // CONNECT, COPY
    else if verb == 10 && index == 1 && ch == 'O' then 11   // MKCOL, MOVE
    else if verb == 10 && index == 1 && ch == 'E' then 23   // MKCOL, MERGE
    else if verb == 10 && index == 1 && ch == '-' then 24   // MKCOL, M-SEARCH
    else if verb == 10 && index == 2 && ch == 'A' then 21   // MKCOL, MKACTIVITY
    else if verb == 10 && index == 3 && ch == 'A' then 30   // MKCOL, MKCALENDAR
    else if verb == 26 && index == 1 && ch == 'E' then 14   // SUBSCRIBE, SEARCH
    else if verb == 26 && index == 1 && ch == 'O' then 33   // SUBSCRIBE, SOURCE
    else if verb == 20 && index == 2 && ch == 'B' then 17   // REPORT, REBIND
    else if verb == 12 && index == 4 && ch == 'P' then 13   // PROPFIND, PROPPATCH
    else if verb == 9 && index == 1 && ch == 'I' then 31    // LOCK, LINK
    else if verb == 15 && index == 2 && ch == 'S' then 27   // UNLOCK, UNSUBSCRIBE
    else if verb == 15 && index == 2 && ch == 'B' then 18   // UNLOCK, UNBIND
    else if verb == 15 && index == 3 && ch == 'I' then 32   // UNLOCK, UNLINK
    else -1
  }

  function MethodByte(s: Parser, ch: Byte): Step
    requires s.verb < METHODS
  {
    if ch == '\0' then Fail(InvalidMethod)
    else
      var matcher := MethodName(s.verb);
      var s' := s.(index := s.index + 1);
      if ch == ' ' && CharAt(matcher, s.index) == '\0' then Consume(s'.(state := ReqSpacesBeforeUrl), Quiet)
      else if ch == CharAt(matcher, s.index) then Consume(s', Quiet)
      else if 'A' <= ch <= 'Z' || ch == '-' then
        var m := SwitchMethod(s.verb, s.index, ch);
        if m < 0 then Fail(InvalidMethod) else Consume(s'.(verb := m), Quiet)
      else Fail(InvalidMethod)
  }

  function UrlByte(s: Parser, from: State, ch: Byte, effect: Effect): Step {
    var next := ParseUrlChar(from, ch);
    if next == Dead then Fail(InvalidUrl) else Consume(s.(state := next), effect)
  }

  function Method(s: Parser, ch: Byte): Step
    requires s.verb < METHODS
  {
    if s.state.ReqMethod? then MethodByte(s, ch)
    else if ch == CR || ch == LF then Consume(s, Quiet)
    else if !IsAlpha(ch) || FirstMethod(ch) < 0 then Fail(InvalidMethod)
    else
      Consume(StartMessage(s).(verb := FirstMethod(ch), index := 1, state := ReqMethod), Notify(MessageBegin))
  }

  function Url(s: Parser, ch: Byte): Step {
    if s.state.ReqSpacesBeforeUrl? then
      if ch == ' ' then Consume(s, Quiet)
      else UrlByte(s, if s.verb == CONNECT then ReqServerStart else ReqSpacesBeforeUrl, ch, Mark(UrlData))
    else if s.state.ReqSchema? || s.state.ReqSchemaSlash? || s.state.ReqSchemaSlashSlash? || s.state.ReqServerStart? then
      UrlByte(s, s.state, ch, Quiet)
    else if ch == ' ' then Consume(s.(state := ReqHttpStart), Flush(UrlData))
    else if ch == CR || ch == LF then
      var next := if ch == CR then ReqLineAlmostDone else HeaderFieldStart;
      Consume(s.(httpMajor := 0, httpMinor := 9, state := next), Flush(UrlData))
    else UrlByte(s, s.state, ch, Quiet)
  }

  function RequestVersion(s: Parser, ch: Byte): Step {
    if s.state.ReqHttpStart? then
      if ch == ' ' then Consume(s, Quiet)
      else if ch == 'H' then Consume(s.(state := ReqHttpH), Quiet)
      else if ch == 'I' && s.verb == SOURCE then Consume(s.(state := ReqHttpI), Quiet)
      else Fail(InvalidConstant)
    else if s.state.ReqHttpMajor? then
      if IsNum(ch) then Consume(s.(httpMajor := Digit(ch), state := ReqHttpDot), Quiet) else Fail(InvalidVersion)
    else if s.state.ReqHttpMinor? then
      if IsNum(ch) then Consume(s.(httpMinor := Digit(ch), state := ReqHttpEnd), Quiet) else Fail(InvalidVersion)
    else if s.state.ReqHttpEnd? then
      if ch == CR then Consume(s.(state := ReqLineAlmostDone), Quiet)
      else if ch == LF then Consume(s.(state := HeaderFieldStart), Quiet)
      else Fail(InvalidVersion)
    else if s.state.ReqHttpDot? && ch != '.' then Fail(InvalidVersion)
    else if s.state.ReqLineAlmostDone? && ch != LF then Fail(LfExpected)
    else
      var next :=
        if s.state.ReqHttpH? then ReqHttpHT else if s.state.ReqHttpHT? then ReqHttpHTT
        else if s.state.ReqHttpHTT? then ReqHttpHTTP else if s.state.ReqHttpI? then ReqHttpIC
        else if s.state.ReqHttpIC? then ReqHttpHTTP else if s.state.ReqHttpHTTP? then ReqHttpMajor
        else if s.state.ReqHttpDot? then ReqHttpMinor else HeaderFieldStart;
      Consume(s.(state := next), Quiet)
  }

  // ----- header fields

  /** The part of the parser that the header scanners overwrite. */
  datatype Scan = Scan(headerState: HeaderState, index: nat, flags: Flags, contentLength: nat)

  function ScanOf(s: Parser): Scan { Scan(s.headerState, s.index, s.flags, s.contentLength) }

  function WithScan(s: Parser, h: Scan): Parser {
    s.(headerState := h.headerState, index := h.index, flags := h.flags, contentLength := h.contentLength)
  }

  /** One more character of a name being compared with `name`; `done` once it is all there. */
  function MatchName(s: Scan, name: string, c: Byte, done: HeaderState): Scan
    requires |name| >= 1
  {
    var i := s.index + 1;
    if i > |name| || c != CharAt(name, i) then s.(index := i, headerState := General)
    else if i == |name| - 1 then s.(index := i, headerState := done)
    else s.(index := i)
  }

  /** The header substates possible while a header name is being read. */
  predicate FieldState(h: HeaderState) {
    h.General? || h.C? || h.CO? || h.CON? || h.MatchingConnection? || h.MatchingProxyConnection?
    || h.MatchingContentLength? || h.MatchingTransferEncoding? || h.MatchingUpgrade?
    || h.Connection? || h.ContentLength? || h.TransferEncoding? || h.Upgrade?
  }

  /** A token character `ch` of a header name, after the first. */
  function FieldByte(s: Scan, ch: Byte): (r: Scan)
    requires FieldState(s.headerState)
    ensures FieldState(r.headerState)
    ensures r.contentLength == s.contentLength
  {
    var c := Token(ch);
    match s.headerState
    case General => s
    case C => s.(index := s.index + 1, headerState := if c == 'o' then CO else General)
    case CO => s.(index := s.index + 1, headerState := if c == 'n' then CON else General)
    case CON =>
      s.(index := s.index + 1,
         headerState := if c == 'n' then MatchingConnection else if c == 't' then MatchingContentLength else General)
    case MatchingConnection => MatchName(s, "connection", c, Connection)
    case MatchingProxyConnection => MatchName(s, "proxy-connection", c, Connection)
    case MatchingContentLength => MatchName(s, "content-length", c, ContentLength)
    case MatchingTransferEncoding =>
      var s' := MatchName(s, "transfer-encoding", c, TransferEncoding);
      if s'.headerState == TransferEncoding then s'.(flags := s'.flags.(transferEncoding := true)) else s'
    case MatchingUpgrade => MatchName(s, "upgrade", c, Upgrade)
    case _ => if ch != ' ' then s.(headerState := General) else s
  }

  function StartField(s: Parser, c: Byte): Parser {
    s.(index := 0, state := HeaderField, headerState :=
      if c == 'c' then C else if c == 'p' then MatchingProxyConnection
      else if c == 't' then MatchingTransferEncoding else if c == 'u' then MatchingUpgrade else General)
  }

  // ----- header values

  /** The header substates possible while a header value is being read. */
  predicate ValueState(h: HeaderState) {
    h.General? || h.ContentLengthNum? || h.ContentLengthWs?
    || h.TransferEncodingTokenStart? || h.MatchingChunked? || h.TransferEncodingToken? || h.TransferEncodingChunked?
    || h.ConnectionTokenStart? || h.MatchingKeepAlive? || h.MatchingClose? || h.MatchingConnectionUpgrade?
    || h.ConnectionToken? || h.ConnectionKeepAlive? || h.ConnectionClose? || h.ConnectionUpgrade?
  }

  /** The first character of a header value, or of a continuation line of one. */
  function StartValue(s: Parser, ch: Byte): Step {
    var c := Lower(ch);
    var s' := s.(state := HeaderValue, index := 0);
    var effect := Mark(HeaderValueData);
    match s.headerState
    case Upgrade => Consume(s'.(flags := s.flags.(upgrade := true), headerState := General), effect)
    case TransferEncoding =>
      Consume(s'.(headerState := if c == 'c' then MatchingChunked else TransferEncodingToken), effect)
    case TransferEncodingTokenStart | ContentLengthWs | ConnectionTokenStart => Consume(s', effect)
    case ContentLength =>
      if !IsNum(ch) then Fail(InvalidContentLength)
      else if s.flags.contentLength then Fail(UnexpectedContentLength)
      else Consume(s'.(flags := s.flags.(contentLength := true), contentLength := Digit(ch),
                       headerState := ContentLengthNum), effect)
    case Connection =>
      Consume(s'.(headerState :=
        if c == 'k' then MatchingKeepAlive else if c == 'c' then MatchingClose
        else if c == 'u' then MatchingConnectionUpgrade else ConnectionToken), effect)
    case _ => Consume(s'.(headerState := General), effect)
  }

  /** One more character of a token of a list being compared with `name`. */
  function MatchToken(s: Scan, name: string, c: Byte, done: HeaderState, other: HeaderState): Scan
    requires |name| >= 1
  {
    var i := s.index + 1;
    if i > |name| || c != CharAt(name, i) then s.(index := i, headerState := other)
    else if i == |name| - 1 then s.(index := i, headerState := done)
    else s.(index := i)
  }

  function ListToken(s: Scan, ch: Byte, start: HeaderState): Scan {
    if ch == ',' then s.(headerState := start, index := 0) else s
  }

  function SetConnectionFlag(flags: Flags, h: HeaderState): Flags {
    match h
    case ConnectionKeepAlive => flags.(connectionKeepAlive := true)
    case ConnectionClose => flags.(connectionClose := true)
    case ConnectionUpgrade => flags.(connectionUpgrade := true)
    case _ => flags
  }

  datatype ValueResult = Good(scan: Scan) | Bad(errno: Errno)

  /** One more character of a Content-Length value, accumulated in 64 bits. */
  function LengthDigit(s: Scan, ch: Byte): (r: ValueResult)
    requires s.contentLength < ULLONG_MAX
    ensures r.Good? ==> r.scan.contentLength < ULLONG_MAX
  {
    if ch == ' ' then Good(s.(headerState := ContentLengthWs))
    else if !IsNum(ch) then Bad(InvalidContentLength)
    else if (ULLONG_MAX - 10) / 10 < s.contentLength then Bad(InvalidContentLength)
    else Good(s.(headerState := ContentLengthNum,
                  contentLength := (s.contentLength * 10 + Digit(ch)) % (ULLONG_MAX + 1)))
  }

  /** A character of a header value other than CR and LF, after the first. */
  function ValueByte(s: Scan, ch: Byte): (r: ValueResult)
    requires ValueState(s.headerState)
    requires s.headerState.ContentLengthNum? ==> s.contentLength < ULLONG_MAX
    ensures r.Good? ==> ValueState(r.scan.headerState)
    ensures r.Good? && r.scan.headerState.ContentLengthNum? ==> r.scan.contentLength < ULLONG_MAX
    ensures r.Good? && r.scan.contentLength != s.contentLength ==> s.headerState.ContentLengthNum?
    ensures r.Bad? ==> r.errno == InvalidHeaderToken || r.errno == InvalidContentLength
  {
    var c := Lower(ch);
    if !IsHeaderChar(ch) then Bad(InvalidHeaderToken)
    else match s.headerState
      case General => Good(s)
      case ContentLengthNum => LengthDigit(s, ch)
      case ContentLengthWs => if ch == ' ' then Good(s) else Bad(InvalidContentLength)
      case TransferEncodingTokenStart =>
        Good(s.(headerState :=
          if c == 'c' then MatchingChunked
          else if StrictToken(c) != '\0' then TransferEncodingToken
          else if c == ' ' || c == '\t' then TransferEncodingTokenStart
          else General))
      case MatchingChunked => Good(MatchToken(s, "chunked", c, TransferEncodingChunked, TransferEncodingToken))
      case TransferEncodingToken => Good(ListToken(s, ch, TransferEncodingTokenStart))
      case ConnectionTokenStart =>
        Good(s.(headerState :=
          if c == 'k' then MatchingKeepAlive
          else if c == 'c' then MatchingClose
          else if c == 'u' then MatchingConnectionUpgrade
          else if StrictToken(c) != '\0' then ConnectionToken
          else if c == ' ' || c == '\t' then ConnectionTokenStart
          else General))
      case MatchingKeepAlive => Good(MatchToken(s, "keep-alive", c, ConnectionKeepAlive, ConnectionToken))
      case MatchingClose => Good(MatchToken(s, "close", c, ConnectionClose, ConnectionToken))
      case MatchingConnectionUpgrade => Good(MatchToken(s, "upgrade", c, ConnectionUpgrade, ConnectionToken))
      case ConnectionToken => Good(ListToken(s, ch, ConnectionTokenStart))
      case TransferEncodingChunked => Good(if ch != ' ' then s.(headerState := TransferEncodingToken) else s)
      case _ =>  // ConnectionKeepAlive, ConnectionClose, ConnectionUpgrade
        Good(if ch == ',' then
                s.(flags := SetConnectionFlag(s.flags, s.headerState), headerState := ConnectionTokenStart, index := 0)
              else if ch != ' ' then s.(headerState := ConnectionToken)
              else s)
  }

  /** The flags a header leaves behind when its value is complete. */
  function FinishHeader(flags: Flags, h: HeaderState): Flags {
    if h == TransferEncodingChunked then flags.(chunked := true) else SetConnectionFlag(flags, h)
  }

  function Field(s: Parser, ch: Byte): Step
    requires s.state == HeaderField ==> FieldState(s.headerState)
  {
    if s.state.HeaderField? then
      if Token(ch) != '\0' then Consume(WithScan(s, FieldByte(ScanOf(s), ch)), Quiet)
      else if ch == ':' then Consume(s.(state := HeaderValueDiscardWs), Flush(HeaderFieldData))
      else Fail(InvalidHeaderToken)
    else if ch == CR then Consume(s.(state := HeadersAlmostDone), Quiet)  // HeaderFieldStart
    else if ch == LF then Again(s.(state := HeadersAlmostDone), Quiet)
    else if Token(ch) == '\0' then Fail(InvalidHeaderToken)
    else Consume(StartField(s, Token(ch)), Mark(HeaderFieldData))
  }

  function Value(s: Parser, ch: Byte): Step
    requires Inv(s)
  {
    if s.state.HeaderValue? then
      if ch == CR then Consume(s.(state := HeaderAlmostDone), Flush(HeaderValueData))
      else if ch == LF then Again(s.(state := HeaderAlmostDone), Flush(HeaderValueData))
      else (match ValueByte(ScanOf(s), ch) case Good(h) => Consume(WithScan(s, h), Quiet) case Bad(e) => Fail(e))
    else if s.state.HeaderValueStart? then StartValue(s, ch)
    else if ch == ' ' || ch == '\t' then Consume(s, Quiet)  // HeaderValueDiscardWs
    else if ch == CR then Consume(s.(state := HeaderValueDiscardWsAlmostDone), Quiet)
    else if ch == LF then Consume(s.(state := HeaderValueDiscardLws), Quiet)
    else StartValue(s, ch)
  }

  function EndOfValue(s: Parser, ch: Byte): Step {
    if s.state.HeaderAlmostDone? then
      if ch == LF then Consume(s.(state := HeaderValueLws), Quiet) else Fail(LfExpected)
    else if s.state.HeaderValueLws? then
      if ch == ' ' || ch == '\t' then
        var h := if s.headerState.ContentLengthNum? then ContentLengthWs else s.headerState;
        Again(s.(headerState := h, state := HeaderValueStart), Quiet)
      else Again(s.(flags := FinishHeader(s.flags, s.headerState), state := HeaderFieldStart), Quiet)
    else if s.state.HeaderValueDiscardWsAlmostDone? then Consume(s.(state := HeaderValueDiscardLws), Quiet)
    else if ch == ' ' || ch == '\t' then Consume(s.(state := HeaderValueDiscardWs), Quiet)  // HeaderValueDiscardLws
    else if s.headerState.ContentLength? then Fail(InvalidContentLength)
    else
      Again(s.(flags := FinishHeader(s.flags, s.headerState), state := HeaderFieldStart),
            MarkAndFlush(HeaderValueData))
  }

  // ----- end of headers

  function UpgradeRequested(s: Parser): bool {
    if s.flags.upgrade && s.flags.connectionUpgrade then s.kind == Request || s.statusCode == 101
    else s.verb == CONNECT
  }

  function EndHeaders(cfg: Settings, s: Parser): Step {
    if s.flags.trailing then Again(s.(state := MessageDone), Notify(ChunkComplete))
    else if s.flags.transferEncoding && s.flags.contentLength then Fail(UnexpectedContentLength)
    else
      var s1 := s.(state := HeadersDone, upgrade := UpgradeRequested(s));
      var s2 := match cfg.onHeadersComplete(Info(s1))
        case ProceedToBody => s1
        case SkipBody => s1.(flags := s1.flags.(skipBody := true))
        case SkipBodyAndUpgrade => s1.(flags := s1.flags.(skipBody := true), upgrade := true);
      Again(s2, Notify(HeadersComplete(Info(s1))))
  }

  function ChooseBody(s0: Parser): Step {
    var s := s0.(nread := 0);
    var hasBody := s.flags.chunked || (s.contentLength > 0 && s.contentLength != ULLONG_MAX);
    var next := s.(state := StartState(s.kind));
    var done := Notify(MessageComplete);
    if s.upgrade && (s.verb == CONNECT || s.flags.skipBody || !hasBody) then Leave(next, done)
    else if s.flags.skipBody then Consume(next, done)
    else if s.flags.chunked then Consume(s.(state := ChunkSizeStart), Quiet)
    else if s.flags.transferEncoding then
      if s.kind == Request then Fail(InvalidTransferEncoding) else Consume(s.(state := BodyIdentityEof), Quiet)
    else if s.contentLength == 0 then Consume(next, done)
    else if s.contentLength != ULLONG_MAX then Consume(s.(state := BodyIdentity), Quiet)
    else if !NeedsEof(s) then Consume(next, done)
    else Consume(s.(state := BodyIdentityEof), Quiet)
  }

  // ----- bodies

  function Identity(s: Parser): Step
    requires s.state == BodyIdentity ==> s.contentLength > 0
  {
    if s.state.BodyIdentity? then
      var s' := s.(contentLength := s.contentLength - 1);
      if s'.contentLength == 0 then Again(s'.(state := MessageDone), MarkAndFlushThrough(BodyData))
      else Consume(s', Mark(BodyData))
    else if s.state.BodyIdentityEof? then Consume(s, Mark(BodyData))
    else  // MessageDone
      var s' := s.(state := StartState(s.kind));
      if s.upgrade then Leave(s', Notify(MessageComplete)) else Consume(s', Notify(MessageComplete))
  }

  function ChunkLine(s: Parser, ch: Byte): Step {
    if s.state.ChunkSizeStart? then
      if Unhex(ch) == -1 then Fail(InvalidChunkSize)
      else Consume(s.(contentLength := Unhex(ch), state := ChunkSize), Quiet)
    else if s.state.ChunkSize? then
      if ch == CR then Consume(s.(state := ChunkSizeAlmostDone), Quiet)
      else if Unhex(ch) == -1 then
        if ch == ';' || ch == ' ' then Consume(s.(state := ChunkParameters), Quiet) else Fail(InvalidChunkSize)
      else if (ULLONG_MAX - 16) / 16 < s.contentLength then Fail(InvalidContentLength)
      else Consume(s.(contentLength := (s.contentLength * 16 + Unhex(ch)) % (ULLONG_MAX + 1)), Quiet)
    else if s.state.ChunkParameters? then
      Consume(if ch == CR then s.(state := ChunkSizeAlmostDone) else s, Quiet)
    else  // ChunkSizeAlmostDone
      var effect := Notify(ChunkHeader(s.contentLength));
      if s.contentLength == 0 then
        Consume(s.(nread := 0, flags := s.flags.(trailing := true), state := HeaderFieldStart), effect)
      else Consume(s.(nread := 0, state := ChunkData), effect)
  }

  function ChunkBody(s: Parser): Step
    requires s.state == ChunkData ==> s.contentLength > 0
  {
    if s.state.ChunkData? then
      var s' := s.(contentLength := s.contentLength - 1);
      Consume(if s'.contentLength == 0 then s'.(state := ChunkDataAlmostDone) else s', Mark(BodyData))
    else if s.state.ChunkDataAlmostDone? then Consume(s.(state := ChunkDataDone), Flush(BodyData))
    else Consume(s.(nread := 0, state := ChunkSizeStart), Notify(ChunkComplete))  // ChunkDataDone
  }

  // ----- the whole machine

  datatype Group =
    | StartGroup | ResponseVersionGroup | StatusGroup | MethodGroup | UrlGroup | RequestVersionGroup
    | FieldGroup | ValueGroup | EndOfValueGroup | EndGroup | ChooseGroup
    | IdentityGroup | ChunkLineGroup | ChunkBodyGroup

  /** The states, by the function that handles them. */
  function GroupOf(state: State): Group {
    match state
    case Dead | StartReqOrRes | ResOrRespH | StartRes => StartGroup
    case ResH | ResHT | ResHTT | ResHTTP | ResHttpMajor | ResHttpDot | ResHttpMinor | ResHttpEnd => ResponseVersionGroup
    case ResFirstStatusCode | ResStatusCode | ResStatusStart | ResStatus | ResLineAlmostDone => StatusGroup
    case StartReq | ReqMethod => MethodGroup
    case ReqSpacesBeforeUrl | ReqSchema | ReqSchemaSlash | ReqSchemaSlashSlash | ReqServerStart | ReqServer
      | ReqServerWithAt | ReqPath | ReqQueryStringStart | ReqQueryString | ReqFragmentStart | ReqFragment => UrlGroup
    case ReqHttpStart | ReqHttpH | ReqHttpHT | ReqHttpHTT | ReqHttpHTTP | ReqHttpI | ReqHttpIC | ReqHttpMajor
      | ReqHttpDot | ReqHttpMinor | ReqHttpEnd | ReqLineAlmostDone => RequestVersionGroup
    case HeaderFieldStart | HeaderField => FieldGroup
    case HeaderValueDiscardWs | HeaderValueStart | HeaderValue => ValueGroup
    case HeaderAlmostDone | HeaderValueLws | HeaderValueDiscardWsAlmostDone | HeaderValueDiscardLws => EndOfValueGroup
    case HeadersAlmostDone => EndGroup
    case HeadersDone => ChooseGroup
    case BodyIdentity | BodyIdentityEof | MessageDone => IdentityGroup
    case ChunkSizeStart | ChunkSize | ChunkParameters | ChunkSizeAlmostDone => ChunkLineGroup
    case ChunkData | ChunkDataAlmostDone | ChunkDataDone => ChunkBodyGroup
  }

  /** What every reachable parser satisfies while a byte is being looked at: among other
      things, everything the C source asserts. */
  predicate Inv(s: Parser) {
    && s.errno == Ok
    && !s.state.Dead?
    && s.verb < METHODS
    && s.statusCode <= 999
    && s.contentLength <= ULLONG_MAX
    && (s.state.InChunk() ==> s.flags.chunked)
    && (s.state.ReqMethod? ==> s.index <= |MethodName(s.verb)|)
    && (s.state.HeaderField? ==> FieldState(s.headerState))
    && (s.state.HeaderValue? || s.state.HeaderAlmostDone? || s.state.HeaderValueLws? ==>
          ValueState(s.headerState) && (s.headerState.ContentLengthNum? ==> s.contentLength < ULLONG_MAX))
    && (s.state.ChunkSize? || s.state.ChunkParameters? || s.state.ChunkSizeAlmostDone? ==>
          s.contentLength < ULLONG_MAX)
    && (s.state.BodyIdentity? || s.state.ChunkData? ==> 0 < s.contentLength < ULLONG_MAX)
    && (s.state.ChunkDataAlmostDone? ==> s.contentLength == 0)
  }

  /** What one byte does in one state. */
  function Once(cfg: Settings, s: Parser, ch: Byte): Step
    requires Inv(s)
  {
    match GroupOf(s.state)
    case StartGroup => Start(s, ch)
    case ResponseVersionGroup => ResponseVersion(s, ch)
    case StatusGroup => StatusLine(s, ch)
    case MethodGroup => Method(s, ch)
    case UrlGroup => Url(s, ch)
    case RequestVersionGroup => RequestVersion(s, ch)
    case FieldGroup => Field(s, ch)
    case ValueGroup => Value(s, ch)
    case EndOfValueGroup => EndOfValue(s, ch)
    case EndGroup => EndHeaders(cfg, s)
    case ChooseGroup => ChooseBody(s)
    case IdentityGroup => Identity(s)
    case ChunkLineGroup => ChunkLine(s, ch)
    case ChunkBodyGroup => ChunkBody(s)
  }
}
