/** Whole messages, and any number of them on one connection: what is printed as RFC 7230 says is
    reported as it was printed. Bodies are framed in the parser's own order of branches; where that is not
    the framing of section 3.3.3 is in HttpStandard. */
module HttpExchange {
  import opened HttpTypes
  import opened HttpMachine
  import opened HttpInvariant
  import opened HttpTrace
  import opened HttpRun
  import opened HttpBatch
  import opened HttpNumbers
  import opened HttpHeaderNames
  import opened HttpHeaderLists
  import opened HttpHeaders
  import opened HttpFields
  import opened HttpFraming
  import opened HttpMessages
  import opened HttpExecute
  import opened HttpSplit

  // ----- the end of the head

  /** How the body of a message is framed. */
  datatype Framing = Nothing | Chunked | Sized(length: nat) | UntilClose | Elsewhere | Unframed(errno: Errno)

  /** The framing that a head asks for, with the answer of the headers-complete callback. */
  function FramingOf(s: Parser, reply: HeadersReply): Framing {
    var upgrade := UpgradeRequested(s) || reply.SkipBodyAndUpgrade?;
    var framed := s.flags.chunked || 0 < s.contentLength < ULLONG_MAX;
    if s.flags.transferEncoding && s.flags.contentLength then Unframed(UnexpectedContentLength)
    else if upgrade && (s.verb == CONNECT || !reply.ProceedToBody? || !framed) then Elsewhere
    else if !reply.ProceedToBody? then Nothing
    else if s.flags.chunked then Chunked
    else if s.flags.transferEncoding then if s.kind == Request then Unframed(InvalidTransferEncoding) else UntilClose
    else if s.contentLength == 0 then Nothing
    else if s.contentLength < ULLONG_MAX then Sized(s.contentLength)
    else if s.kind == Request || s.statusCode / 100 == 1 || s.statusCode == 204 || s.statusCode == 304 then Nothing
    else UntilClose
  }

  /** What the callback is shown, and what it answers. */
  function HeadInfo(s: Parser): MessageInfo { Info(s.(upgrade := UpgradeRequested(s))) }

  function Reply(cfg: Settings, s: Parser): HeadersReply { (cfg.onHeadersComplete)(HeadInfo(s)) }

  /** The parser behind the head, but for its state. */
  function Headed(cfg: Settings, s: Parser): Parser {
    s.(upgrade := UpgradeRequested(s) || Reply(cfg, s).SkipBodyAndUpgrade?,
       flags := s.flags.(skipBody := !Reply(cfg, s).ProceedToBody?), nread := 0)
  }

  /** The parser that has read all header fields, and none of the empty line. */
  predicate HeadersRead(cfg: Settings, s: Parser) {
    && s.state == HeaderFieldStart && s.nread + 2 <= cfg.maxHeaderSize
    && !s.flags.trailing && !s.flags.skipBody
  }

  /** How the empty line ends the head, with `n` bytes. */
  predicate HeadEnds(cfg: Settings, s: Parser, r: Outcome, n: nat) {
    var done := HeadersComplete(HeadInfo(s));
    var s' := Headed(cfg, s);
    match FramingOf(s, Reply(cfg, s))
    case Unframed(e) => r.Failed? && r.errno == e
    case Nothing => r == Running(s'.(state := StartState(s.kind)), [done, MessageComplete])
    case Elsewhere => r == Left(s'.(state := StartState(s.kind)), [done, MessageComplete], n)
    case Chunked => r == Running(s'.(state := ChunkSizeStart), [done])
    case Sized(_) => r == Running(s'.(state := BodyIdentity), [done])
    case UntilClose => r == Running(s'.(state := BodyIdentityEof), [done])
  }

  /** The parser between the empty line and the body. */
  function Choosing(cfg: Settings, s: Parser): Parser {
    s.(state := HeadersDone, upgrade := Headed(cfg, s).upgrade, flags := Headed(cfg, s).flags)
  }

  lemma EndOnce(cfg: Settings, s: Parser)
    requires Inv(s) && s.state == HeadersAlmostDone && !s.flags.trailing && !s.flags.skipBody
    ensures Once(cfg, s, LF) ==
            if s.flags.transferEncoding && s.flags.contentLength then Fail(UnexpectedContentLength)
            else Again(Choosing(cfg, s), Notify(HeadersComplete(HeadInfo(s))))
  {
    hide Inv;
    var s1 := s.(state := HeadersDone, upgrade := UpgradeRequested(s));
    assert Info(s1) == HeadInfo(s);
    assert s.flags.(skipBody := false) == s.flags;
  }

  /** The step that chooses the body. */
  predicate Chooses(cfg: Settings, s: Parser, step: Step) {
    var s' := Headed(cfg, s);
    match FramingOf(s, Reply(cfg, s))
    case Unframed(e) => step == Fail(e)
    case Nothing => step == Consume(s'.(state := StartState(s.kind)), Notify(MessageComplete))
    case Elsewhere => step == Leave(s'.(state := StartState(s.kind)), Notify(MessageComplete))
    case Chunked => step == Consume(s'.(state := ChunkSizeStart), Quiet)
    case Sized(_) => step == Consume(s'.(state := BodyIdentity), Quiet)
    case UntilClose => step == Consume(s'.(state := BodyIdentityEof), Quiet)
  }

  lemma ChooseOnce(cfg: Settings, s: Parser)
    requires Inv(Choosing(cfg, s)) && s.contentLength <= ULLONG_MAX
    requires !(s.flags.transferEncoding && s.flags.contentLength)
    ensures Chooses(cfg, s, Once(cfg, Choosing(cfg, s), LF))
  {
    hide Inv, UpgradeRequested, Reply;
  }

  /** The state and the count of header bytes do not matter for the framing. */
  lemma SameHead(cfg: Settings, s: Parser, state: State, n: nat)
    ensures var s2 := s.(state := state, nread := n);
            && FramingOf(s2, Reply(cfg, s2)) == FramingOf(s, Reply(cfg, s)) && HeadInfo(s2) == HeadInfo(s)
            && Headed(cfg, s2) == Headed(cfg, s).(state := state)
  {
  }

  lemma CountedEnd(cfg: Settings, s: Parser, ch: Byte)
    requires Inv(s) && s.nread <= cfg.maxHeaderSize && s.state == HeadersDone
    ensures var r, step := CountedByte(cfg, s, ch), Once(cfg, s, ch);
            && (step.Consume? && step.effect.Notify? ==> r == Running(step.parser, [step.effect.event]))
            && (step.Consume? && step.effect == Quiet ==> r == Running(step.parser, []))
            && (step.Leave? && step.effect.Notify? ==> r == Left(step.parser, [step.effect.event], 1))
            && (step.Fail? ==> r == Failed(step.errno, 0))
  {
    hide Once, Inv;
  }

  lemma FailsAtOnce(cfg: Settings, s: Parser, ch: Byte, e: Errno)
    requires Inv(s) && s.nread <= cfg.maxHeaderSize && Once(cfg, s, ch) == Fail(e)
    ensures CountedByte(cfg, s, ch) == Failed(e, 0)
  {
    hide Once, Inv;
  }

  lemma ChosenByte(cfg: Settings, s: Parser, r: Outcome)
    requires Inv(Choosing(cfg, s)) && s.contentLength <= ULLONG_MAX && s.nread <= cfg.maxHeaderSize
    requires !(s.flags.transferEncoding && s.flags.contentLength)
    requires r == CountedByte(cfg, Choosing(cfg, s), LF).After([HeadersComplete(HeadInfo(s))], 0)
    ensures HeadEnds(cfg, s, r, 1)
  {
    hide Once, Inv, CountedByte, UpgradeRequested, Reply, HeadInfo, Headed;
    var done := HeadersComplete(HeadInfo(s));
    ChooseOnce(cfg, s);
    CountedEnd(cfg, Choosing(cfg, s), LF);
    hide FramingOf;
    assert [done] + [MessageComplete] == [done, MessageComplete];
    assert [done] + [] == [done];
  }

  lemma LengthInRange(s: Parser)
    requires Inv(s)
    ensures s.contentLength <= ULLONG_MAX
  {
  }

  /** The line feed that ends the head. */
  lemma HeadLineFeed(cfg: Settings, s: Parser)
    requires Inv(s) && s.state == HeadersAlmostDone && !s.flags.trailing && !s.flags.skipBody && s.nread <= cfg.maxHeaderSize
    ensures HeadEnds(cfg, s, CountedByte(cfg, s, LF), 1)
  {
    hide Once, Inv, CountedByte, UpgradeRequested, Reply, HeadInfo, Headed, Choosing, OpenAt;
    LengthInRange(s);
    EndOnce(cfg, s);
    if s.flags.transferEncoding && s.flags.contentLength {
      FailsAtOnce(cfg, s, LF, UnexpectedContentLength);
    } else {
      hide HeadEnds;
      CountedAgain(cfg, s, LF, Choosing(cfg, s), Notify(HeadersComplete(HeadInfo(s))));
      ChosenByte(cfg, s, CountedByte(cfg, s, LF));
    }
  }

  lemma HeadEndsLater(cfg: Settings, s: Parser, s2: Parser, r: Outcome)
    requires s2 == s.(state := HeadersAlmostDone, nread := s.nread + 2) && HeadEnds(cfg, s2, r, 1)
    ensures HeadEnds(cfg, s, r.After([], 1), 2)
  {
    hide FramingOf, Reply, HeadInfo, Headed;
    SameHead(cfg, s, HeadersAlmostDone, s.nread + 2);
    assert !r.Failed? ==> [] + r.events == r.events;
  }

  /** The empty line behind the header fields. */
  lemma HeadEnd(cfg: Settings, s: Parser)
    requires AtRest(cfg, s) && HeadersRead(cfg, s)
    ensures HeadEnds(cfg, s, Run(cfg, s, [CR, LF]), 2)
  {
    hide AtRest, Inv, CountedByte, HeadEnds, Run;
    RunTwo(cfg, s, CR, LF);
    TrailerCr(cfg, s);
    var s1 := s.(state := HeadersAlmostDone, nread := s.nread + 1);
    CountKeepsInv(cfg, s1);
    HeadLineFeed(cfg, Count(s1));
    HeadEndsLater(cfg, s, Count(s1), StepByte(cfg, s1, LF));
  }

  // ----- what is reported, in whole spans

  /** A header field, as the application sees it. */
  function HeaderReport(h: Header): seq<Event> {
    [Data(HeaderFieldData, h.name), Data(HeaderValueData, PrintValue(h.value))]
  }

  function BlockReport(hs: seq<Header>): seq<Event> {
    if hs == [] then [] else HeaderReport(hs[0]) + BlockReport(hs[1..])
  }

  /** A span reported byte by byte and then closed is the whole span. */
  lemma {:induction false} SpanJoins(kind: DataKind, bytes: Bytes)
    ensures Join(Singles(kind, bytes) + [Data(kind, [])]) == Join([Data(kind, bytes)])
    decreases |bytes|
  {
    hide Join;
    if bytes == [] {
      assert Singles(kind, bytes) + [Data(kind, [])] == [Data(kind, bytes)];
    } else {
      assert Join([] + [Data(kind, [])]) == Join([] + [Data(kind, [])]);
      JoinSpan([], [], kind, [], bytes);
      assert [] + bytes == bytes && [] + [Data(kind, bytes)] == [Data(kind, bytes)];
      assert [] + Singles(kind, bytes) == Singles(kind, bytes);
      JoinEmpty([], kind, bytes);
      JoinSameTail([Data(kind, bytes)], Singles(kind, bytes), [Data(kind, [])]);
    }
  }

  lemma HeaderJoins(h: Header)
    ensures Join(HeaderEvents(h)) == Join(HeaderReport(h))
  {
    hide Join, Singles, PrintValue;
    var v := PrintValue(h.value);
    SpanJoins(HeaderFieldData, h.name);
    SpanJoins(HeaderValueData, v);
    JoinConcat(Singles(HeaderFieldData, h.name) + [Data(HeaderFieldData, [])], [Data(HeaderFieldData, h.name)],
               Singles(HeaderValueData, v) + [Data(HeaderValueData, [])], [Data(HeaderValueData, v)]);
    assert HeaderReport(h) == [Data(HeaderFieldData, h.name)] + [Data(HeaderValueData, v)];
  }

  lemma {:induction false} BlockJoins(hs: seq<Header>)
    ensures Join(BlockEvents(hs)) == Join(BlockReport(hs))
    decreases |hs|
  {
    hide Join, HeaderEvents, HeaderReport;
    if hs != [] {
      HeaderJoins(hs[0]);
      BlockJoins(hs[1..]);
      JoinConcat(HeaderEvents(hs[0]), HeaderReport(hs[0]), BlockEvents(hs[1..]), BlockReport(hs[1..]));
    }
  }

  // ----- a message

  /** The body of a message, as it is printed. An open one ends with the connection. */
  datatype Body =
    | Empty
    | Plain(bytes: Bytes)
    | Open(bytes: Bytes)
    | Chunks(chunks: seq<Chunk>, lastSize: Bytes, lastExt: Bytes, trailers: seq<Header>)

  function PrintBody(body: Body): Bytes {
    if body.Empty? then []
    else if body.Chunks? then
      PrintChunks(body.chunks) + (SizeLine(body.lastSize, body.lastExt) + (PrintHeaders(body.trailers) + [CR, LF]))
    else body.bytes
  }

  /** The callbacks of a body, and of the end of the message unless the body is open. */
  function BodyEvents(body: Body): seq<Event> {
    if body.Empty? then [MessageComplete]
    else if body.Plain? then [Data(BodyData, body.bytes), MessageComplete]
    else if body.Open? then if body.bytes == [] then [] else [Data(BodyData, body.bytes)]
    else ChunkTrace(body.chunks) + ([ChunkHeader(0)] + (BlockReport(body.trailers) + [ChunkComplete, MessageComplete]))
  }

  /** The body is one that the head of the message asks for. */
  predicate Frames(cfg: Settings, m: Parser, body: Body) {
    var framing := FramingOf(m, Reply(cfg, m));
    if body.Empty? then framing == Nothing || framing == Elsewhere
    else if body.Plain? then framing == Sized(|body.bytes|)
    else if body.Open? then framing == UntilClose
    else framing == Chunked && AreChunks(cfg, Headed(cfg, m).flags, body)
  }

  predicate AreHeaders(hs: seq<Header>) { forall i :: 0 <= i < |hs| ==> IsHeader(hs[i]) }

  /** What the header fields behind the last chunk say, on top of those before the body. */
  function TrailerSays(flags: Flags, body: Body): Heeded
    requires body.Chunks? && AreHeaders(body.trailers)
  {
    HeedAll(Block(flags.(trailing := true), 0), body.trailers)
  }

  /** Chunks with data, a last chunk without, and header fields that are heeded. */
  predicate AreChunks(cfg: Settings, flags: Flags, body: Body)
    requires body.Chunks?
  {
    && (forall i :: 0 <= i < |body.chunks| ==> IsChunk(cfg, body.chunks[i]))
    && IsSizeLine(cfg, body.lastSize, body.lastExt, 0)
    && AreHeaders(body.trailers) && TrailerSays(flags, body).Heeded?
    && |PrintHeaders(body.trailers)| + 2 <= cfg.maxHeaderSize
  }

  /** The flags behind a body: the fields behind the last chunk count as well. */
  function BodyFlags(flags: Flags, body: Body): Flags {
    if body.Chunks? && AreHeaders(body.trailers) && TrailerSays(flags, body).Heeded? then TrailerSays(flags, body).block.flags
    else flags
  }

  /** The count of header bytes behind a body: what follows the last chunk is counted, and the count is not
      set back for the next message. */
  function Carried(body: Body): nat { if body.Chunks? then |PrintHeaders(body.trailers)| + 2 else 0 }

  /** The parser waits for this body. */
  predicate Awaits(cfg: Settings, s: Parser, body: Body) {
    if body.Empty? then false
    else if body.Plain? then s.state == BodyIdentity && s.contentLength == |body.bytes|
    else if body.Open? then s.state == BodyIdentityEof
    else s.state == ChunkSizeStart && AreChunks(cfg, s.flags, body)
  }

  /** A message whose head has left the parser at `s`, but for its state, has been read to its end: the parser
      waits for the next one, or has left. An open body goes on. */
  predicate Done(s: Parser, body: Body, r: Outcome, n: nat) {
    if r.Failed? then false
    else if body.Open? then r.Running? && OpenBody(s, r.parser)
    else NextMessage(s, body, r.parser) && (r.Left? <==> s.upgrade) && (r.Left? ==> r.consumed == n)
  }

  predicate OpenBody(s: Parser, s': Parser) { s'.state == BodyIdentityEof && Alike(s, s') }

  predicate NextMessage(s: Parser, body: Body, s': Parser) {
    && s'.state == StartState(s.kind) && s'.kind == s.kind && s'.statusCode == s.statusCode && s'.nread == Carried(body)
    && s'.httpMajor == s.httpMajor && s'.httpMinor == s.httpMinor
    && SameButTrailing(s'.flags, BodyFlags(s.flags, body))
    && (body.Empty? ==> s'.contentLength == s.contentLength) && (body.Plain? ==> s'.contentLength == 0)
  }

  predicate SameButTrailing(f: Flags, g: Flags) { f == g.(trailing := f.trailing) }

  /** Parsers that agree on all that the end of a message depends on. */
  predicate Alike(s: Parser, m: Parser) {
    && m.kind == s.kind && m.statusCode == s.statusCode && m.upgrade == s.upgrade && m.flags == s.flags
    && m.httpMajor == s.httpMajor && m.httpMinor == s.httpMinor && m.contentLength == s.contentLength
  }

  lemma OpenEvents(bytes: Bytes)
    requires bytes != []
    ensures Join(Singles(BodyData, bytes)) == Join([Data(BodyData, bytes)])
  {
    hide Join, Singles;
    JoinSpan([], [], BodyData, [], bytes);
    assert [] + bytes == bytes && [] + [Data(BodyData, bytes)] == [Data(BodyData, bytes)];
    assert [] + Singles(BodyData, bytes) == Singles(BodyData, bytes);
  }

  /** The header fields behind the last chunk, and the end of the message. */
  lemma ReadTrailers(cfg: Settings, s: Parser, body: Body)
    requires AtRest(cfg, s) && s.state == HeaderFieldStart && s.flags.trailing && s.nread == 0 && s.contentLength == 0
    requires body.Chunks? && AreHeaders(body.trailers) && HeedAll(Block(s.flags, 0), body.trailers).Heeded?
    requires |PrintHeaders(body.trailers)| + 2 <= cfg.maxHeaderSize
    ensures var text := PrintHeaders(body.trailers) + [CR, LF];
            var r := Run(cfg, s, text);
            && !r.Failed? && (r.Left? <==> s.upgrade) && (r.Left? ==> r.consumed == |text|)
            && Join(r.events) == Join(BlockReport(body.trailers) + [ChunkComplete, MessageComplete])
            && TrailersRead(s, HeedAll(Block(s.flags, 0), body.trailers).block.flags, Carried(body), r.parser)
  {
    hide AtRest, Run, Join, PrintHeaders, BlockEvents, BlockReport, HeedAll, IsHeader;
    var hs := body.trailers;
    var s' := HeaderBlock(cfg, s, hs, [CR, LF]);
    HeedAllKeeps(Block(s.flags, 0), hs);
    RunTrailer(cfg, s');
    BlockJoins(hs);
    JoinConcat(BlockEvents(hs), BlockReport(hs), [ChunkComplete, MessageComplete], [ChunkComplete, MessageComplete]);
  }

  predicate TrailersRead(s: Parser, flags: Flags, n: nat, s': Parser) {
    && s'.state == StartState(s.kind) && s'.kind == s.kind && s'.statusCode == s.statusCode && s'.nread == n
    && s'.httpMajor == s.httpMajor && s'.httpMinor == s.httpMinor && s'.flags == flags
  }

  /** A chunked body, from its first size line: the chunks, a last chunk of size zero and the header fields
      behind it are reported as they were printed, and then the message is complete. */
  lemma ChunkedBody(cfg: Settings, s: Parser, body: Body)
    requires AtRest(cfg, s) && body.Chunks? && s.state == ChunkSizeStart && AreChunks(cfg, s.flags, body)
    ensures var r := Run(cfg, s, PrintBody(body));
            Done(s, body, r, |PrintBody(body)|) && Join(r.events) == Join(BodyEvents(body))
  {
    hide AtRest, Run, Join, IsChunk, IsSizeLine, PrintChunks, SizeLine, ChunkTrace, PrintHeaders, BlockReport, HeedAll,
      IsHeader;
    var size := SizeLine(body.lastSize, body.lastExt);
    var rest := PrintHeaders(body.trailers) + [CR, LF];
    RunChunks(cfg, s, body.chunks);
    var r1 := Run(cfg, s, PrintChunks(body.chunks));
    RunAppend(cfg, s, PrintChunks(body.chunks), size + rest);
    RunSizeLine(cfg, r1.parser, body.lastSize, body.lastExt, 0);
    RunAppend(cfg, r1.parser, size, rest);
    var s2 := AfterSizeLine(r1.parser, 0);
    ReadTrailers(cfg, s2, body);
    var r2 := Run(cfg, s2, rest);
    var end := BlockReport(body.trailers) + [ChunkComplete, MessageComplete];
    JoinConcat([ChunkHeader(0)], [ChunkHeader(0)], r2.events, end);
    JoinConcat(r1.events, ChunkTrace(body.chunks), [ChunkHeader(0)] + r2.events, [ChunkHeader(0)] + end);
  }

  /** A body that follows its head. */
  lemma ReadBody(cfg: Settings, s: Parser, body: Body)
    requires AtRest(cfg, s) && s.nread == 0 && Awaits(cfg, s, body)
    ensures var r := Run(cfg, s, PrintBody(body));
            Done(s, body, r, |PrintBody(body)|) && Join(r.events) == Join(BodyEvents(body))
  {
    hide AtRest, Run, Join, AreChunks, PrintChunks, SizeLine, ChunkTrace, PrintHeaders, Singles;
    if body.Plain? {
      IdentityBody(cfg, s, body.bytes);
      JoinDone(body.bytes);
    } else if body.Open? {
      RunIdentityEof(cfg, s, body.bytes);
      if body.bytes != [] {
        OpenEvents(body.bytes);
      } else {
        SinglesNone(BodyData, body.bytes);
      }
    } else {
      ChunkedBody(cfg, s, body);
    }
  }

  lemma JoinDone(body: Bytes)
    ensures Join([Data(BodyData, body), MessageComplete]) == [Data(BodyData, body), MessageComplete]
  {
    assert [Data(BodyData, body)] + [MessageComplete] == [Data(BodyData, body), MessageComplete];
    JoinPair(body);
  }

  lemma {:induction false} ToldKeeps(conn: bool, flags: Flags, es: seq<Element>)
    ensures var r := Told(conn, flags, es); r.trailing == flags.trailing && r.skipBody == flags.skipBody
    decreases |es|
  {
    hide Hears, SetFor;
    if es != [] {
      SetForMeans(Told(conn, flags, es[..|es| - 1]), es[|es| - 1].word);
      ToldKeeps(conn, flags, es[..|es| - 1]);
    }
  }

  lemma HeedKeeps(b: Block, h: Header)
    requires IsHeader(h) && Heed(b, h).Heeded?
    ensures var r := Heed(b, h).block.flags; r.trailing == b.flags.trailing && r.skipBody == b.flags.skipBody
  {
    hide IsHeader, KindOf, EndsChunked, Told, Decimal;
    if h.value.List? {
      ToldKeeps(true, FlagsAfterName(b.flags, h.name), h.value.elements);
    }
  }

  lemma {:induction false} HeedAllKeeps(b: Block, hs: seq<Header>)
    requires forall i :: 0 <= i < |hs| ==> IsHeader(hs[i])
    requires HeedAll(b, hs).Heeded?
    ensures var r := HeedAll(b, hs).block.flags; r.trailing == b.flags.trailing && r.skipBody == b.flags.skipBody
    decreases |hs|
  {
    hide IsHeader, Heed;
    if hs != [] {
      HeedKeeps(b, hs[0]);
      HeedAllKeeps(Heed(b, hs[0]).block, hs[1..]);
    }
  }

  // ----- start line, header fields, body

  /** The parser behind the header fields, as far as the message is concerned. */
  function Says(s: Parser, b: Block): Parser { s.(flags := b.flags, contentLength := b.length) }

  /** The header fields and the body of a message whose start line has left the parser at `s`. */
  predicate IsRest(cfg: Settings, s: Parser, hs: seq<Header>, body: Body) {
    && (forall i :: 0 <= i < |hs| ==> IsHeader(hs[i]))
    && s.nread + |PrintHeaders(hs)| + 2 <= cfg.maxHeaderSize
    && HeedAll(Block(s.flags, s.contentLength), hs).Heeded?
    && Frames(cfg, Says(s, HeedAll(Block(s.flags, s.contentLength), hs).block), body)
  }

  function PrintRest(hs: seq<Header>, body: Body): Bytes { PrintHeaders(hs) + ([CR, LF] + PrintBody(body)) }

  function RestEvents(info: MessageInfo, hs: seq<Header>, body: Body): seq<Event> {
    BlockEvents(hs) + ([HeadersComplete(info)] + BodyEvents(body))
  }

  lemma SameMessage(cfg: Settings, s: Parser, b: Block, n: nat, s': Parser)
    requires s.state == HeaderFieldStart && LineRead(s, b.flags, b.length, n, s')
    ensures var m := Says(s, b);
            && FramingOf(s', Reply(cfg, s')) == FramingOf(m, Reply(cfg, m)) && HeadInfo(s') == HeadInfo(m)
            && Alike(Headed(cfg, s'), Headed(cfg, m))
            && forall body :: Frames(cfg, m, body) ==> Frames(cfg, s', body)
  {
  }

  lemma NothingLeaves(s: Parser, reply: HeadersReply)
    ensures FramingOf(s, reply) == Nothing ==> !UpgradeRequested(s) && !reply.SkipBodyAndUpgrade?
    ensures FramingOf(s, reply) == Elsewhere ==> UpgradeRequested(s) || reply.SkipBodyAndUpgrade?
  {
    hide UpgradeRequested;
  }

  lemma SizedLength(s: Parser, reply: HeadersReply, n: nat)
    requires FramingOf(s, reply) == Sized(n)
    ensures s.contentLength == n
  {
    hide UpgradeRequested;
  }

  /** The empty line behind a head that no body follows. */
  lemma ReadEmpty(cfg: Settings, s: Parser)
    requires AtRest(cfg, s) && HeadersRead(cfg, s) && Frames(cfg, s, Empty)
    ensures var r := Run(cfg, s, [CR, LF]);
            && Done(Headed(cfg, s), Empty, r, 2)
            && !r.Failed? && r.events == [HeadersComplete(HeadInfo(s)), MessageComplete]
  {
    hide AtRest, HeadersRead, FramingOf, Reply, HeadInfo, Run, UpgradeRequested, BodyFlags, Carried;
    HeadEnd(cfg, s);
    EmptyPrints();
    NothingLeaves(s, Reply(cfg, s));
  }

  lemma EmptyEvents(info: MessageInfo)
    ensures [HeadersComplete(info)] + BodyEvents(Empty) == [HeadersComplete(info), MessageComplete]
  {
  }

  /** The empty line behind a head that a body follows. */
  lemma BodyAwaited(cfg: Settings, s: Parser, body: Body)
    requires AtRest(cfg, s) && HeadersRead(cfg, s) && Frames(cfg, s, body) && !body.Empty?
    ensures var r := Run(cfg, s, [CR, LF]);
            && r.Running? && r.events == [HeadersComplete(HeadInfo(s))]
            && Awaits(cfg, r.parser, body) && r.parser.nread == 0 && Alike(r.parser, Headed(cfg, s))
  {
    hide AtRest, HeadersRead, FramingOf, Reply, HeadInfo, Run, AreChunks, UpgradeRequested;
    HeadEnd(cfg, s);
    if body.Plain? {
      SizedLength(s, Reply(cfg, s), |body.bytes|);
    }
  }

  /** The empty line and the body. */
  lemma ReadEnd(cfg: Settings, s: Parser, body: Body)
    requires AtRest(cfg, s) && HeadersRead(cfg, s) && Frames(cfg, s, body)
    ensures var text := [CR, LF] + PrintBody(body);
            var r := Run(cfg, s, text);
            && Done(Headed(cfg, s), body, r, |text|)
            && Join(r.events) == Join([HeadersComplete(HeadInfo(s))] + BodyEvents(body))
  {
    hide AtRest, HeadersRead, Frames, Headed, HeadInfo, Run, Join, Done, PrintBody, BodyEvents, Awaits, Alike;
    if body.Empty? {
      ReadEmpty(cfg, s);
      EmptyPrints();
      EmptyEvents(HeadInfo(s));
      assert [CR, LF] + [] == [CR, LF];
    } else {
      BodyAwaited(cfg, s, body);
      RunAppend(cfg, s, [CR, LF], PrintBody(body));
      var s', done := Run(cfg, s, [CR, LF]).parser, [HeadersComplete(HeadInfo(s))];
      ReadBody(cfg, s', body);
      var r := Run(cfg, s', PrintBody(body));
      DoneLater(s', Headed(cfg, s), body, r, |PrintBody(body)|, done, 2);
      JoinConcat(done, done, r.events, BodyEvents(body));
    }
  }

  lemma EmptyPrints()
    ensures PrintBody(Empty) == [] && Carried(Empty) == 0 && forall flags :: BodyFlags(flags, Empty) == flags
  {
  }

  /** The header fields and the body of a message: they are reported as they were printed, and the body is
      framed as the header fields say. */
  lemma ReadRest(cfg: Settings, s: Parser, hs: seq<Header>, body: Body)
    requires AtRest(cfg, s) && s.state == HeaderFieldStart && !s.flags.trailing && !s.flags.skipBody
    requires IsRest(cfg, s, hs, body)
    ensures var m := Says(s, HeedAll(Block(s.flags, s.contentLength), hs).block);
            var r := Run(cfg, s, PrintRest(hs, body));
            && Done(Headed(cfg, m), body, r, |PrintRest(hs, body)|)
            && Join(r.events) == Join(RestEvents(HeadInfo(m), hs, body))
  {
    hide AtRest, FramingOf, Reply, HeadInfo, Headed, Run, Join, PrintBody, Frames, BlockEvents, BodyEvents, PrintHeaders, IsHeader, Heed, LineRead;
    var b := HeedAll(Block(s.flags, s.contentLength), hs).block;
    var rest := [CR, LF] + PrintBody(body);
    var s' := HeaderBlock(cfg, s, hs, rest);
    HeedAllKeeps(Block(s.flags, s.contentLength), hs);
    SameMessage(cfg, s, b, |PrintHeaders(hs)|, s');
    LineReadFields(s, b, |PrintHeaders(hs)|, s');
    hide HeedAll;
    ReadEnd(cfg, s', body);
    var r := Run(cfg, s', rest);
    DoneLater(Headed(cfg, s'), Headed(cfg, Says(s, b)), body, r, |rest|, BlockEvents(hs), |PrintHeaders(hs)|);
    JoinConcat(BlockEvents(hs), BlockEvents(hs), r.events, [HeadersComplete(HeadInfo(s'))] + BodyEvents(body));
  }

  lemma LineReadFields(s: Parser, b: Block, n: nat, s': Parser)
    requires LineRead(s, b.flags, b.length, n, s')
    ensures s'.state == HeaderFieldStart && s'.nread == s.nread + n && s'.flags == b.flags
  {
  }

  lemma DoneLater(s: Parser, m: Parser, body: Body, r: Outcome, n: nat, events: seq<Event>, before: nat)
    requires Done(s, body, r, n) && Alike(s, m)
    ensures !r.Failed? && Done(m, body, r.After(events, before), before + n)
  {
  }

  // ----- reports of messages

  /** A message whose start line is reported as `start`. */
  function MessageReport(start: Event, info: MessageInfo, hs: seq<Header>, body: Body): seq<Event> {
    [MessageBegin, start] + (BlockReport(hs) + ([HeadersComplete(info)] + BodyEvents(body)))
  }

  lemma MessageJoins(kind: DataKind, bytes: Bytes, info: MessageInfo, hs: seq<Header>, body: Body)
    ensures Join([MessageBegin] + (Singles(kind, bytes) + [Data(kind, [])]) + RestEvents(info, hs, body)) ==
            Join(MessageReport(Data(kind, bytes), info, hs, body))
  {
    hide Join, Singles, BlockEvents, BlockReport, BodyEvents;
    var span := Singles(kind, bytes) + [Data(kind, [])];
    var end := [HeadersComplete(info)] + BodyEvents(body);
    SpanJoins(kind, bytes);
    JoinConcat([MessageBegin], [MessageBegin], span, [Data(kind, bytes)]);
    assert [MessageBegin] + [Data(kind, bytes)] == [MessageBegin, Data(kind, bytes)];
    BlockJoins(hs);
    JoinConcat(BlockEvents(hs), BlockReport(hs), end, end);
    JoinConcat([MessageBegin] + span, [MessageBegin, Data(kind, bytes)], BlockEvents(hs) + end, BlockReport(hs) + end);
  }

  // ----- requests

  datatype HttpRequest = HttpRequest(line: RequestLine, headers: seq<Header>, body: Body)

  /** A request line and header fields that are well formed, and all heeded. */
  predicate IsSound(q: HttpRequest) {
    && IsRequestLine(q.line) && (forall i :: 0 <= i < |q.headers| ==> IsHeader(q.headers[i]))
    && HeedAll(Block(NO_FLAGS, ULLONG_MAX), q.headers).Heeded?
  }

  function PrintRequest(q: HttpRequest): Bytes
    requires IsSound(q)
  {
    PrintRequestLine(q.line) + PrintRest(q.headers, q.body)
  }

  /** The parser behind the header fields of a request, as far as the message is concerned. */
  function RequestSays(s: Parser, q: HttpRequest): Parser
    requires IsSound(q)
  {
    Says(RequestLineRead(s, q.line), HeedAll(Block(NO_FLAGS, ULLONG_MAX), q.headers).block)
  }

  /** A request within the header limit, with the body its header fields ask for. */
  predicate IsRequest(cfg: Settings, s: Parser, q: HttpRequest)
    requires IsSound(q)
  {
    s.nread + |PrintRequestLine(q.line)| <= cfg.maxHeaderSize
    && IsRest(cfg, RequestLineRead(s, q.line), q.headers, q.body)
  }

  /** What the headers-complete callback is shown of a request: the request line, and what its header fields say.
      The status code is the one left from before. */
  ghost function RequestInfo(s: Parser, q: HttpRequest): (info: MessageInfo)
    requires IsSound(q)
    ensures info.kind == s.kind && info.statusCode == s.statusCode
    ensures info.verb == q.line.verb
    ensures info.httpMajor == Digit(q.line.major) && info.httpMinor == Digit(q.line.minor)
    ensures info.contentLength == if LengthOf(q.headers).Some? then LengthOf(q.headers).value else 0xFFFF_FFFF_FFFF_FFFF
    ensures info.upgrade <==>
              if Any(q.headers, NamesUpgrade) && SaysToken(q.headers, "upgrade") then s.kind == Request || s.statusCode == 101
              else MethodName(q.line.verb) == "CONNECT"
    ensures FlagsSay(info.flags, q.headers)
  {
    HeadSays(RequestLineRead(s, q.line), q.headers);
    OnlyConnect(q.line.verb);
    HeadInfo(RequestSays(s, q))
  }

  /** The flags behind a head, one by one. */
  ghost predicate FlagsSay(flags: Flags, hs: seq<Header>) {
    && flags.chunked == Any(hs, HeardChunked)
    && flags.connectionKeepAlive == SaysToken(hs, "keep-alive")
    && flags.connectionClose == SaysToken(hs, "close")
    && flags.connectionUpgrade == SaysToken(hs, "upgrade")
    && flags.upgrade == Any(hs, NamesUpgrade)
    && flags.contentLength == LengthOf(hs).Some?
    && flags.transferEncoding == Any(hs, BeginsCoding)
    && !flags.trailing && !flags.skipBody
  }

  lemma OnlyConnect(verb: nat)
    requires verb < METHODS
    ensures MethodName(verb) == "CONNECT" <==> verb == CONNECT
  {
    assert MethodName(CONNECT) == "CONNECT";
  }

  /** What is shown of a head, behind a start line that has left the parser at `s`. */
  lemma HeadSays(s: Parser, hs: seq<Header>)
    requires AreHeaders(hs) && HeedAll(Block(NO_FLAGS, ULLONG_MAX), hs).Heeded?
    ensures var info := HeadInfo(Says(s, HeedAll(Block(NO_FLAGS, ULLONG_MAX), hs).block));
            && info.kind == s.kind && info.statusCode == s.statusCode && info.verb == s.verb
            && info.httpMajor == s.httpMajor && info.httpMinor == s.httpMinor
            && info.contentLength == (if LengthOf(hs).Some? then LengthOf(hs).value else 0xFFFF_FFFF_FFFF_FFFF)
            && (info.upgrade <==>
                 if Any(hs, NamesUpgrade) && SaysToken(hs, "upgrade") then s.kind == Request || s.statusCode == 101
                 else s.verb == CONNECT)
            && FlagsSay(info.flags, hs)
  {
    hide IsHeader, HeedAll, Any, SaysToken, LengthOf;
    BlockMeans(Block(NO_FLAGS, ULLONG_MAX), hs);
    BlockSays(Block(NO_FLAGS, ULLONG_MAX), hs);
    HeedAllKeeps(Block(NO_FLAGS, ULLONG_MAX), hs);
  }

  ghost function RequestReport(s: Parser, q: HttpRequest): seq<Event>
    requires IsSound(q)
  {
    MessageReport(Data(UrlData, q.line.target), RequestInfo(s, q), q.headers, q.body)
  }

  lemma RequestStarts(s: Parser, l: RequestLine)
    requires IsRequestLine(l)
    ensures var s' := RequestLineRead(s, l);
            && s'.state == HeaderFieldStart && s'.flags == NO_FLAGS && s'.contentLength == ULLONG_MAX
            && s'.kind == s.kind && s'.statusCode == s.statusCode && s'.nread == s.nread + |PrintRequestLine(l)|
  {
  }

  lemma LineEvents(l: RequestLine)
    ensures RequestLineEvents(l) == [MessageBegin] + (Singles(UrlData, l.target) + [Data(UrlData, [])])
  {
  }

  /** A request is reported as it was printed: method, target, every header field, what the head says, the
      body it asks for, and the end of the message; the parser then waits for the next message, or
      leaves behind the last byte. */
  lemma ReadRequest(cfg: Settings, s: Parser, q: HttpRequest)
    requires AtRest(cfg, s) && s.state == StartReq && IsSound(q) && IsRequest(cfg, s, q)
    ensures var r := Run(cfg, s, PrintRequest(q));
            && Done(Headed(cfg, RequestSays(s, q)), q.body, r, |PrintRequest(q)|)
            && Join(r.events) == Join(RequestReport(s, q))
  {
    hide AtRest, Run, Join, PrintRequestLine, RequestLineRead, RequestLineEvents, PrintRest, RestEvents, MessageReport, HeedAll, Frames, Headed, HeadInfo;
    RequestStarts(s, q.line);
    ReadRequestLine(cfg, s, q.line);
    var s1 := RequestLineRead(s, q.line);
    var line, rest := PrintRequestLine(q.line), PrintRest(q.headers, q.body);
    RunAppend(cfg, s, line, rest);
    ReadRest(cfg, s1, q.headers, q.body);
    var m := RequestSays(s, q);
    var r := Run(cfg, s1, rest);
    DoneLater(Headed(cfg, m), Headed(cfg, m), q.body, r, |rest|, RequestLineEvents(q.line), |line|);
    JoinConcat(RequestLineEvents(q.line), RequestLineEvents(q.line), r.events, RestEvents(HeadInfo(m), q.headers, q.body));
    MessageJoins(UrlData, q.line.target, HeadInfo(m), q.headers, q.body);
    LineEvents(q.line);
  }

  // ----- responses

  datatype HttpResponse = HttpResponse(line: StatusLineText, headers: seq<Header>, body: Body)

  predicate IsResponse(cfg: Settings, s: Parser, p: HttpResponse) {
    IsStatusLine(p.line) && IsRest(cfg, StatusLineRead(s, p.line), p.headers, p.body)
  }

  /** The parser behind the header fields of a response, as far as the message is concerned. */
  function ResponseSays(cfg: Settings, s: Parser, p: HttpResponse): Parser
    requires IsResponse(cfg, s, p)
  {
    ResponseStarts(s, p.line);
    Says(StatusLineRead(s, p.line), HeedAll(Block(NO_FLAGS, ULLONG_MAX), p.headers).block)
  }

  /** What the headers-complete callback is shown of a response. The method is the one left from before. */
  ghost function ResponseInfo(cfg: Settings, s: Parser, p: HttpResponse): (info: MessageInfo)
    requires IsResponse(cfg, s, p)
    ensures info.kind == s.kind && info.verb == s.verb
    ensures IsStatusLine(p.line) &&
            info.statusCode == 100 * Digit(p.line.code[0]) + 10 * Digit(p.line.code[1]) + Digit(p.line.code[2])
    ensures info.httpMajor == Digit(p.line.major) && info.httpMinor == Digit(p.line.minor)
    ensures info.contentLength == if LengthOf(p.headers).Some? then LengthOf(p.headers).value else 0xFFFF_FFFF_FFFF_FFFF
    ensures info.upgrade <==>
              if Any(p.headers, NamesUpgrade) && SaysToken(p.headers, "upgrade") then s.kind == Request || info.statusCode == 101
              else s.verb == CONNECT
    ensures FlagsSay(info.flags, p.headers)
  {
    ResponseStarts(s, p.line);
    CodeLength(p.line);
    CodeBounds(p.line.code);
    HeadSays(StatusLineRead(s, p.line), p.headers);
    HeadInfo(ResponseSays(cfg, s, p))
  }

  ghost function ResponseReport(cfg: Settings, s: Parser, p: HttpResponse): seq<Event>
    requires IsResponse(cfg, s, p)
  {
    MessageReport(Data(StatusData, p.line.reason), ResponseInfo(cfg, s, p), p.headers, p.body)
  }

  function PrintResponse(p: HttpResponse): Bytes
    requires IsStatusLine(p.line)
  {
    PrintStatusLine(p.line) + PrintRest(p.headers, p.body)
  }

  lemma ResponseStarts(s: Parser, l: StatusLineText)
    requires IsStatusLine(l)
    ensures var s' := StatusLineRead(s, l);
            && s'.state == HeaderFieldStart && s'.flags == NO_FLAGS && s'.contentLength == ULLONG_MAX
  {
  }

  /** A response is reported as it was printed: version, code, reason, every header field, what the head
      says, the body it asks for, and the end of the message. */
  lemma ReadResponse(cfg: Settings, s: Parser, p: HttpResponse)
    requires AtRest(cfg, s) && s.state == StartRes && IsResponse(cfg, s, p)
    requires s.nread + |PrintStatusLine(p.line)| <= cfg.maxHeaderSize
    ensures var r := Run(cfg, s, PrintResponse(p));
            && Done(Headed(cfg, ResponseSays(cfg, s, p)), p.body, r, |PrintResponse(p)|)
            && Join(r.events) == Join(ResponseReport(cfg, s, p))
  {
    hide AtRest, Run, Join, PrintStatusLine, StatusLineRead, IsStatusLine, Singles, PrintRest, RestEvents, MessageReport, HeedAll, Frames, Headed, HeadInfo;
    ResponseStarts(s, p.line);
    CodeLength(p.line);
    ReadStatusLine(cfg, s, p.line);
    var s1 := StatusLineRead(s, p.line);
    var line, rest := PrintStatusLine(p.line), PrintRest(p.headers, p.body);
    RunAppend(cfg, s, line, rest);
    ReadRest(cfg, s1, p.headers, p.body);
    var m := Says(s1, HeedAll(Block(NO_FLAGS, ULLONG_MAX), p.headers).block);
    var r := Run(cfg, s1, rest);
    var first := [MessageBegin] + (Singles(StatusData, p.line.reason) + [Data(StatusData, [])]);
    DoneLater(Headed(cfg, m), Headed(cfg, m), p.body, r, |rest|, first, |line|);
    JoinConcat(first, first, r.events, RestEvents(HeadInfo(m), p.headers, p.body));
    MessageJoins(StatusData, p.line.reason, HeadInfo(m), p.headers, p.body);
  }

  // ----- many requests on one connection

  function PrintAll(qs: seq<HttpRequest>): Bytes
    requires forall i :: 0 <= i < |qs| ==> IsSound(qs[i])
  {
    if qs == [] then [] else PrintAll(qs[..|qs| - 1]) + PrintRequest(qs[|qs| - 1])
  }

  /** A request that fits within the header limit, with `n` bytes carried over, and keeps the protocol. */
  predicate IsNext(cfg: Settings, s: Parser, n: nat, q: HttpRequest)
    requires IsSound(q)
  {
    IsRequest(cfg, s.(nread := n), q) && !Headed(cfg, RequestSays(s, q)).upgrade
  }

  /** The count of header bytes in front of the i-th request. */
  function CountBefore(s: Parser, qs: seq<HttpRequest>, i: nat): nat
    requires i <= |qs|
  {
    if i == 0 then s.nread else Carried(qs[i - 1].body)
  }

  predicate AreRequests(cfg: Settings, s: Parser, qs: seq<HttpRequest>) {
    forall i :: 0 <= i < |qs| ==> IsSound(qs[i]) && IsNext(cfg, s, CountBefore(s, qs, i), qs[i])
  }

  ghost function AllReports(s: Parser, qs: seq<HttpRequest>): seq<Event>
    requires forall i :: 0 <= i < |qs| ==> IsSound(qs[i])
  {
    if qs == [] then [] else AllReports(s, qs[..|qs| - 1]) + RequestReport(s, qs[|qs| - 1])
  }

  /** A request depends on the parser before it only for the last status code and the count of bytes. */
  lemma SameRequest(cfg: Settings, s: Parser, s': Parser, q: HttpRequest)
    requires IsSound(q) && IsNext(cfg, s, s'.nread, q) && s'.kind == s.kind && s'.statusCode == s.statusCode
    ensures IsRequest(cfg, s', q)
    ensures RequestReport(s', q) == RequestReport(s, q)
    ensures !Headed(cfg, RequestSays(s', q)).upgrade
    ensures Headed(cfg, RequestSays(s', q)).kind == s.kind && Headed(cfg, RequestSays(s', q)).statusCode == s.statusCode
  {
    hide IsHeader, HeedAll, PrintHeaders, PrintRequestLine, IsRequestLine, MethodName, AreChunks, BlockReport, BodyEvents;
  }

  lemma NotOpen(cfg: Settings, s: Parser, q: HttpRequest)
    requires IsSound(q) && s.kind == Request && IsRequest(cfg, s, q)
    ensures !q.body.Open?
  {
    hide IsHeader, HeedAll, PrintHeaders, PrintRequestLine, IsRequestLine, MethodName, AreChunks, Headed, Reply, UpgradeRequested;
    RequestStarts(s, q.line);
  }

  /** Requests one after another, each as its header fields say, are all reported, in order, as they were printed. */
  lemma {:induction false} ReadRequests(cfg: Settings, s: Parser, qs: seq<HttpRequest>)
    requires AtRest(cfg, s) && s.state == StartReq && s.kind == Request && AreRequests(cfg, s, qs)
    ensures var r := Run(cfg, s, PrintAll(qs));
            && r.Running? && r.parser.state == StartReq && r.parser.kind == Request
            && r.parser.nread == CountBefore(s, qs, |qs|) && r.parser.statusCode == s.statusCode
            && Join(r.events) == Join(AllReports(s, qs))
    decreases |qs|
  {
    hide AtRest, Run, Join, IsSound, IsNext, PrintRequest, RequestReport, IsRequest, Headed, RequestSays, Carried, BodyFlags;
    if qs == [] {
      RunNil(cfg, s);
    } else {
      var n := |qs| - 1;
      assert AreRequests(cfg, s, qs[..n]) by {
        assert forall i | 0 <= i < n :: CountBefore(s, qs[..n], i) == CountBefore(s, qs, i);
      }
      ReadRequests(cfg, s, qs[..n]);
      var r := Run(cfg, s, PrintAll(qs[..n]));
      SameRequest(cfg, s, r.parser, qs[n]);
      RunAppend(cfg, s, PrintAll(qs[..n]), PrintRequest(qs[n]));
      ReadRequest(cfg, r.parser, qs[n]);
      NotOpen(cfg, r.parser, qs[n]);
      JoinConcat(r.events, AllReports(s, qs[..n]), Run(cfg, r.parser, PrintRequest(qs[n])).events, RequestReport(s, qs[n]));
    }
  }

  /** A parser object that is handed requests one after another, cut into calls anywhere, reports exactly
      these requests. */
  method Receive(parser: HttpParser, cfg: Settings, pieces: seq<Bytes>, ghost qs: seq<HttpRequest>)
    returns (n: nat, events: seq<Event>)
    requires AtRest(cfg, parser.s) && parser.s.state == StartReq && parser.s.kind == Request
    requires AreRequests(cfg, parser.s, qs)
    requires forall i :: 0 <= i < |pieces| ==> pieces[i] != [] && CountsFit(cfg, pieces[i])
    requires Concat(pieces) == PrintAll(qs)
    modifies parser
    ensures parser.s.errno == Ok && n == |Concat(pieces)| && parser.s.state == StartReq
    ensures Join(events) == Join(AllReports(old(parser.s), qs))
  {
    hide AtRest, Run, Join, Concat, IsSound, IsNext, PrintAll, AllReports;
    ReadRequests(cfg, parser.s, qs);
    n, events := ExecuteAll(parser, cfg, pieces);
  }

  /** A new parser is at rest, whatever it is to parse, waits for that, and has nothing set. */
  lemma InitAtRest(cfg: Settings, kind: ParserType)
    ensures AtRest(cfg, InitParser(kind))
    ensures var s := InitParser(kind);
            && s.kind == kind && s.errno == Ok && !s.upgrade
            && (kind == Request <==> s.state == StartReq) && (kind == Response <==> s.state == StartRes)
            && (kind == Both <==> s.state == StartReqOrRes)
            && s.verb == 0 && s.statusCode == 0 && s.httpMajor == 0 && s.httpMinor == 0 && s.nread == 0 && s.contentLength == 0
  {
  }

  /** The same for a new parser object. */
  method ReceiveFromStart(cfg: Settings, pieces: seq<Bytes>, ghost qs: seq<HttpRequest>)
    returns (parser: HttpParser, n: nat, events: seq<Event>)
    requires AreRequests(cfg, InitParser(Request), qs)
    requires forall i :: 0 <= i < |pieces| ==> pieces[i] != [] && CountsFit(cfg, pieces[i])
    requires Concat(pieces) == PrintAll(qs)
    ensures fresh(parser) && parser.s.errno == Ok && n == |Concat(pieces)| && parser.s.state == StartReq
    ensures Join(events) == Join(AllReports(InitParser(Request), qs))
  {
    hide AtRest, Join, Concat, AreRequests, PrintAll, AllReports;
    parser := new HttpParser(Request);
    InitAtRest(cfg, Request);
    n, events := Receive(parser, cfg, pieces, qs);
  }

  /** A response with an open body, cut into calls anywhere, and then the call without data that stands for the
      end of the connection: the body is complete with that call. */
  method ReceiveUntilClose(parser: HttpParser, cfg: Settings, pieces: seq<Bytes>, ghost p: HttpResponse)
    returns (n: nat, events: seq<Event>)
    requires AtRest(cfg, parser.s) && parser.s.state == StartRes && IsResponse(cfg, parser.s, p) && p.body.Open?
    requires parser.s.nread + |PrintStatusLine(p.line)| <= cfg.maxHeaderSize
    requires forall i :: 0 <= i < |pieces| ==> pieces[i] != [] && CountsFit(cfg, pieces[i])
    requires Concat(pieces) == PrintResponse(p)
    modifies parser
    ensures parser.s.errno == Ok && n == |Concat(pieces)|
    ensures Join(events) == Join(ResponseReport(cfg, old(parser.s), p) + [MessageComplete])
  {
    hide AtRest, Run, Join, Concat, PrintResponse, IsResponse, PrintStatusLine, ResponseReport, Headed;
    ReadResponse(cfg, parser.s, p);
    ghost var report := ResponseReport(cfg, parser.s, p);
    if pieces == [] {
      ConcatNone(pieces);
      RunNil(cfg, parser.s);
    }
    assert pieces != [] && CountsFit(cfg, pieces[0]);
    n, events := ExecuteAll(parser, cfg, pieces);
    RestIsOk(cfg, parser.s);
    ghost var before := events;
    var k, last := parser.Execute(cfg, []);
    events := events + last;
    JoinConcat(before, report, last, last);
  }

  /** A new parser object that is handed a response, cut into calls anywhere, reports it; a call without data
      then completes an open body, and is nothing behind any other. */
  method ReceiveResponseFromStart(cfg: Settings, pieces: seq<Bytes>, close: bool, ghost p: HttpResponse)
    returns (parser: HttpParser, n: nat, events: seq<Event>)
    requires IsResponse(cfg, InitParser(Response), p) && |PrintStatusLine(p.line)| <= cfg.maxHeaderSize
    requires forall i :: 0 <= i < |pieces| ==> pieces[i] != [] && CountsFit(cfg, pieces[i])
    requires Concat(pieces) == PrintResponse(p)
    ensures fresh(parser) && parser.s.errno == Ok && n == |Concat(pieces)|
    ensures Join(events) ==
            Join(ResponseReport(cfg, InitParser(Response), p) + if close && p.body.Open? then [MessageComplete] else [])
  {
    hide AtRest, Run, Join, Concat, PrintResponse, IsResponse, PrintStatusLine, ResponseReport, Headed, Carried, BodyFlags;
    parser := new HttpParser(Response);
    InitAtRest(cfg, Response);
    ReadResponse(cfg, parser.s, p);
    ghost var report := ResponseReport(cfg, parser.s, p);
    if pieces == [] {
      ConcatNone(pieces);
      RunNil(cfg, parser.s);
      NotEmptyResponse(cfg, parser.s, p);
    }
    assert CountsFit(cfg, pieces[0]);
    n, events := ExecuteAll(parser, cfg, pieces);
    RestIsOk(cfg, parser.s);
    if close {
      ghost var before := events;
      var k, last := parser.Execute(cfg, []);
      events := events + last;
      JoinConcat(before, report, last, last);
    } else {
      assert report + [] == report;
    }
  }

  lemma NotEmptyResponse(cfg: Settings, s: Parser, p: HttpResponse)
    requires IsResponse(cfg, s, p)
    ensures IsStatusLine(p.line) && PrintResponse(p) != []
  {
  }
}
