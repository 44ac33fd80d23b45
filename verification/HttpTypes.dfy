/** The data of the incremental HTTP/1.x parser: its enumerations, the parser
    record, and the character tables the automata branch on.
    Non-strict build, lenient header parsing off. */
module HttpTypes {
  /** One octet of input. */
  type Byte = c: char | c as int < 256 witness 'a'
  type Bytes = seq<Byte>

  const CR: Byte := '\r'
  const LF: Byte := '\n'

  /** The sentinel for "no length known", 2^64 - 1. */
  const ULLONG_MAX: nat := 0xFFFF_FFFF_FFFF_FFFF
  const UINT32_RANGE: nat := 0x1_0000_0000

  datatype ParserType = Request | Response | Both

  datatype State =
    | Dead
    | StartReqOrRes | ResOrRespH
    | StartRes | ResH | ResHT | ResHTT | ResHTTP | ResHttpMajor | ResHttpDot | ResHttpMinor | ResHttpEnd
    | ResFirstStatusCode | ResStatusCode | ResStatusStart | ResStatus | ResLineAlmostDone
    | StartReq | ReqMethod | ReqSpacesBeforeUrl
    | ReqSchema | ReqSchemaSlash | ReqSchemaSlashSlash | ReqServerStart | ReqServer | ReqServerWithAt
    | ReqPath | ReqQueryStringStart | ReqQueryString | ReqFragmentStart | ReqFragment
    | ReqHttpStart | ReqHttpH | ReqHttpHT | ReqHttpHTT | ReqHttpHTTP | ReqHttpI | ReqHttpIC
    | ReqHttpMajor | ReqHttpDot | ReqHttpMinor | ReqHttpEnd | ReqLineAlmostDone
    | HeaderFieldStart | HeaderField
    | HeaderValueDiscardWs | HeaderValueDiscardWsAlmostDone | HeaderValueDiscardLws
    | HeaderValueStart | HeaderValue | HeaderValueLws | HeaderAlmostDone
    | ChunkSizeStart | ChunkSize | ChunkParameters | ChunkSizeAlmostDone
    | HeadersAlmostDone | HeadersDone
    | ChunkData | ChunkDataAlmostDone | ChunkDataDone
    | BodyIdentity | BodyIdentityEof
    | MessageDone
  {
    /** The states whose bytes count against the header size limit. */
    predicate ParsingHeader() {
      !(ChunkData? || ChunkDataAlmostDone? || ChunkDataDone? || BodyIdentity? || BodyIdentityEof? || MessageDone?)
    }

    /** The states of a chunked body before its trailer. */
    predicate InChunk() {
      ChunkSizeStart? || ChunkSize? || ChunkParameters? || ChunkSizeAlmostDone?
      || ChunkData? || ChunkDataAlmostDone? || ChunkDataDone?
    }
  }

  datatype HeaderState =
    | General | C | CO | CON
    | MatchingConnection | MatchingProxyConnection | MatchingContentLength
    | MatchingTransferEncoding | MatchingUpgrade
    | Connection | ContentLength | ContentLengthNum | ContentLengthWs | TransferEncoding | Upgrade
    | TransferEncodingTokenStart | MatchingChunked | TransferEncodingToken
    | ConnectionTokenStart | MatchingKeepAlive | MatchingClose | MatchingConnectionUpgrade | ConnectionToken
    | TransferEncodingChunked | ConnectionKeepAlive | ConnectionClose | ConnectionUpgrade

  datatype Errno =
    | Ok | InvalidEofState | HeaderOverflow | ClosedConnection | InvalidVersion | InvalidStatus
    | InvalidMethod | InvalidUrl | LfExpected | InvalidHeaderToken | InvalidContentLength
    | UnexpectedContentLength | InvalidChunkSize | InvalidTransferEncoding | InvalidConstant

  datatype Flags = Flags(
    chunked: bool, connectionKeepAlive: bool, connectionClose: bool, connectionUpgrade: bool,
    trailing: bool, upgrade: bool, skipBody: bool, contentLength: bool, transferEncoding: bool)

  const NO_FLAGS := Flags(false, false, false, false, false, false, false, false, false)

  /** The C struct: a value that the parser object holds and overwrites. */
  datatype Parser = Parser(
    kind: ParserType, state: State, headerState: HeaderState, index: nat, flags: Flags,
    nread: nat, contentLength: nat, httpMajor: nat, httpMinor: nat, statusCode: nat,
    verb: nat, upgrade: bool, errno: Errno)

  /** What callbacks are handed, as a trace. Data callbacks carry the span of input. */
  datatype DataKind = HeaderFieldData | HeaderValueData | UrlData | BodyData | StatusData

  datatype Event =
    | MessageBegin
    | Data(kind: DataKind, bytes: Bytes)
    | HeadersComplete(info: MessageInfo)
    | MessageComplete
    | ChunkHeader(length: nat)
    | ChunkComplete

  /** The read-only part of the struct that the headers-complete callback may look at. */
  datatype MessageInfo = MessageInfo(
    kind: ParserType, flags: Flags, contentLength: nat, httpMajor: nat, httpMinor: nat,
    statusCode: nat, verb: nat, upgrade: bool)

  /** The three answers of the headers-complete callback: 0, 1 and 2. */
  datatype HeadersReply = ProceedToBody | SkipBody | SkipBodyAndUpgrade

  /** The environment of one parser: the header size limit and the headers-complete callback. */
  datatype Settings = Settings(maxHeaderSize: nat, onHeadersComplete: MessageInfo -> HeadersReply)

  function Info(s: Parser): MessageInfo {
    MessageInfo(s.kind, s.flags, s.contentLength, s.httpMajor, s.httpMinor, s.statusCode, s.verb, s.upgrade)
  }

  function InitParser(kind: ParserType): Parser {
    var start := match kind case Request => StartReq case Response => StartRes case Both => StartReqOrRes;
    Parser(kind, start, General, 0, NO_FLAGS, 0, 0, 0, 0, 0, 0, false, Ok)
  }

  // ----- character classes

  /** c | 0x20 as an unsigned char. */
  function Lower(c: Byte): Byte {
    if (c as int / 32) % 2 == 0 then (c as int + 32) as char else c
  }

  predicate IsAlpha(c: Byte) { 'a' <= Lower(c) <= 'z' }
  predicate IsNum(c: Byte) { '0' <= c <= '9' }
  predicate IsAlphaNum(c: Byte) { IsAlpha(c) || IsNum(c) }
  predicate IsHex(c: Byte) { IsNum(c) || 'a' <= Lower(c) <= 'f' }
  predicate IsMark(c: Byte) { c in "-_.!~*'()" }
  predicate IsUserinfoChar(c: Byte) { IsAlphaNum(c) || IsMark(c) || c in "%;:&=+$," }
  predicate IsHostChar(c: Byte) { IsAlphaNum(c) || c == '.' || c == '-' || c == '_' }
  predicate IsHeaderChar(c: Byte) { c == CR || c == LF || c as int == 9 || (c as int > 31 && c as int != 127) }

  /** The bitmap of URL characters; bytes with the top bit set are all accepted. */
  predicate IsUrlChar(c: Byte) {
    var n := c as int;
    n == 9 || n == 12 || (33 <= n < 127 && c != '#' && c != '?') || n >= 128
  }

  /** The token table: the lower-case form of a token character, NUL for the others. */
  function Token(c: Byte): Byte {
    if 'A' <= c <= 'Z' then (c as int + 32) as char
    else if 'a' <= c <= 'z' || '0' <= c <= '9' || c in " !#$%&'*+-.^_`|~" then c
    else '\0'
  }

  function StrictToken(c: Byte): Byte { if c == ' ' then '\0' else Token(c) }

  /** The hex digit table. Only its first 128 entries are written out in the C
      source, so the entries for bytes from 0x80 up are 0 and not -1. */
  function Unhex(c: Byte): int {
    if '0' <= c <= '9' then c as int - '0' as int
    else if 'A' <= c <= 'F' then c as int - 'A' as int + 10
    else if 'a' <= c <= 'f' then c as int - 'a' as int + 10
    else if c as int >= 128 then 0
    else -1
  }

  function Digit(c: Byte): nat requires IsNum(c) { c as int - '0' as int }

  // ----- methods

  const METHODS: nat := 34

  /** The method strings, by method number. */
  function MethodName(verb: nat): string
    requires verb < METHODS
  {
    match verb
    case 0 => "DELETE" case 1 => "GET" case 2 => "HEAD" case 3 => "POST" case 4 => "PUT" case 5 => "CONNECT"
    case 6 => "OPTIONS" case 7 => "TRACE" case 8 => "COPY" case 9 => "LOCK" case 10 => "MKCOL" case 11 => "MOVE"
    case 12 => "PROPFIND" case 13 => "PROPPATCH" case 14 => "SEARCH" case 15 => "UNLOCK" case 16 => "BIND"
    case 17 => "REBIND" case 18 => "UNBIND" case 19 => "ACL" case 20 => "REPORT" case 21 => "MKACTIVITY"
    case 22 => "CHECKOUT" case 23 => "MERGE" case 24 => "M-SEARCH" case 25 => "NOTIFY" case 26 => "SUBSCRIBE"
    case 27 => "UNSUBSCRIBE" case 28 => "PATCH" case 29 => "PURGE" case 30 => "MKCALENDAR" case 31 => "LINK"
    case 32 => "UNLINK" case _ => "SOURCE"
  }

  const HEAD := 2
  const CONNECT := 5
  const SOURCE := 33

  /** The i-th character of a NUL-terminated string. */
  function CharAt(name: string, i: nat): char { if i < |name| then name[i] else '\0' }
}
