/** Two messages in literal characters, and what a new parser reports of them. */
module HttpExamples {
  import opened Wrappers
  import opened HttpTypes
  import opened HttpMachine
  import opened HttpRun
  import opened HttpTrace
  import opened HttpBatch
  import opened HttpNumbers
  import opened HttpHeaderNames
  import opened HttpHeaderLists
  import opened HttpHeaders
  import opened HttpFields
  import opened HttpFraming
  import opened HttpMethods
  import opened HttpMessages
  import opened HttpExchange
  import opened HttpStandard
  import opened HttpCharacters

  // ----- a request

  const HOST := Header("Host", " ", Text("a"))
  const GET := HttpRequest(RequestLine(1, "/", '1', '1'), [HOST], Empty)

  const GET_TEXT: Bytes := "GET / HTTP/1.1\r\n" + ("Host: a\r\n" + "\r\n")

  lemma HostHeader()
    ensures IsHeader(HOST) && KindOf("Host").OtherKind? && FlagsAfterName(NO_FLAGS, "Host") == NO_FLAGS
    ensures PrintHeaders([HOST]) == "Host: a\r\n"
  {
    assert [HOST][1..] == [];
    assert PrintHeader(HOST) == "Host: a\r\n";
  }

  lemma HostHeeded(b: Block)
    requires b.flags == NO_FLAGS
    ensures IsHeader(HOST) && HeedAll(b, [HOST]) == Heeded(b)
  {
    HostHeader();
    hide KindOf, FlagsAfterName;
    assert [HOST][1..] == [];
  }

  lemma RequestText()
    ensures IsSound(GET) && PrintRequest(GET) == GET_TEXT
    ensures PrintRequestLine(GET.line) == "GET / HTTP/1.1\r\n"
  {
    LineText();
    HostHeader();
    HostHeeded(Block(NO_FLAGS, ULLONG_MAX));
    hide IsHeader, HeedAll, IsRequestLine, PrintRequestLine, PrintHeaders;
    assert PrintBody(Empty) == [];
    assert "\r\n" + [] == "\r\n";
  }

  lemma LineText()
    ensures IsRequestLine(GET.line) && PrintRequestLine(GET.line) == "GET / HTTP/1.1\r\n"
  {
    assert Letters(1, 3) == "GET";
    PathTarget(1, "", "");
    assert "/" + "" == "/";
  }

  /** What the callback is shown: method 1, version 1.1, no length, and no flags. */
  const SHOWN := MessageInfo(Request, NO_FLAGS, 0xFFFF_FFFF_FFFF_FFFF, 1, 1, 0, 1, false)

  lemma RequestShown()
    ensures IsSound(GET) && HeadInfo(RequestSays(InitParser(Request), GET)) == SHOWN
  {
    LineText();
    HostHeeded(Block(NO_FLAGS, ULLONG_MAX));
    hide IsHeader, HeedAll, IsRequestLine;
  }

  lemma RequestFits(cfg: Settings)
    requires 30 <= cfg.maxHeaderSize && cfg.onHeadersComplete(SHOWN) == ProceedToBody
    ensures IsSound(GET) && IsRequest(cfg, InitParser(Request), GET)
  {
    RequestText();
    RequestShown();
    HostHeader();
    HostHeeded(Block(NO_FLAGS, ULLONG_MAX));
    hide IsHeader, HeedAll, IsRequestLine, PrintRequestLine, PrintHeaders;
  }

  const REPORT: seq<Event> := [MessageBegin, Data(UrlData, "/"), Data(HeaderFieldData, "Host"), Data(HeaderValueData, "a"),
                               HeadersComplete(SHOWN), MessageComplete]

  /** What the callback is shown: status 200, version 1.1, and chunked. */
  const SHOWN_OK := MessageInfo(Response, NO_FLAGS.(chunked := true, transferEncoding := true), 0xFFFF_FFFF_FFFF_FFFF, 1, 1, 200, 0, false)

  const REPORT_OK: seq<Event> := [MessageBegin, Data(StatusData, "OK"), Data(HeaderFieldData, "Transfer-Encoding"),
                                  Data(HeaderValueData, "chunked"), HeadersComplete(SHOWN_OK), ChunkHeader(5),
                                  Data(BodyData, "hello"), ChunkComplete, ChunkHeader(0), ChunkComplete, MessageComplete]

  /** No two data callbacks of one kind in a row: there is nothing to join. */
  lemma {:induction false} NothingToJoin(events: seq<Event>)
    requires forall i | 0 <= i < |events| - 1 :: Apart(events[i], events[i + 1])
    ensures Join(events) == events
    decreases |events|
  {
    hide Join, Apart, Push;
    if events == [] {
      JoinNone();
    } else {
      var n := |events| - 1;
      NothingToJoin(events[..n]);
      assert events[..n] + [events[n]] == events;
      JoinSnoc(events[..n], events[n]);
      if n > 0 {
        assert Apart(events[n - 1], events[n]);
      }
      PushApart(events[..n], events[n]);
    }
  }

  predicate Apart(a: Event, b: Event) { a.Data? && b.Data? ==> a.kind != b.kind }

  lemma JoinNone()
    ensures Join([]) == []
  {
  }

  lemma PushApart(events: seq<Event>, e: Event)
    requires events == [] || Apart(events[|events| - 1], e)
    ensures Push(events, e) == events + [e]
  {
  }

  lemma ReportsJoined()
    ensures Join(REPORT) == REPORT && Join(REPORT_OK) == REPORT_OK
  {
    NothingToJoin(REPORT);
    NothingToJoin(REPORT_OK);
  }

  lemma RequestReported()
    ensures IsSound(GET) && RequestReport(InitParser(Request), GET) == REPORT
  {
    RequestShown();
    RequestText();
    hide IsSound, RequestSays, HeadInfo;
    var hs := [HOST];
    assert hs[1..] == [];
    assert BlockReport(hs) == [Data(HeaderFieldData, "Host"), Data(HeaderValueData, "a")];
  }

  /** The request `GET / HTTP/1.1` with one header field, read by a new parser. */
  lemma GetRequest(cfg: Settings)
    requires 30 <= cfg.maxHeaderSize && cfg.onHeadersComplete(SHOWN) == ProceedToBody
    ensures var r := Run(cfg, InitParser(Request), GET_TEXT);
            && r.Running? && r.parser.state == StartReq
            && Join(r.events) == REPORT
  {
    hide AtRest, Run, Join, IsRequest, RequestReport, PrintRequest, IsSound, Headed;
    InitAtRest(cfg, Request);
    RequestFits(cfg);
    RequestText();
    RequestReported();
    ReadRequest(cfg, InitParser(Request), GET);
    ReportsJoined();
    RequestStays(cfg);
  }

  lemma RequestStays(cfg: Settings)
    requires cfg.onHeadersComplete(SHOWN) == ProceedToBody
    ensures IsSound(GET) && !Headed(cfg, RequestSays(InitParser(Request), GET)).upgrade
    ensures Headed(cfg, RequestSays(InitParser(Request), GET)).kind == Request
  {
    RequestShown();
  }

  // ----- a response

  const CHUNKED := Coding("chunked")
  const LINE := StatusLineText('1', '1', "200", "OK")
  const HELLO := Chunks([Chunk("5", "", "hello")], "0", "", [])
  const OK := HttpResponse(LINE, [CHUNKED], HELLO)

  const OK_TEXT: Bytes := "HTTP/1.1 200 OK\r\n" + ("Transfer-Encoding: chunked\r\n" +
                          ("\r\n" + "5\r\nhello\r\n0\r\n\r\n"))

  lemma ChunkedText()
    ensures PrintHeaders([CHUNKED]) == "Transfer-Encoding: chunked\r\n"
  {
    var e := Element(0, "chunked", 0);
    assert PrintElement(e) == "chunked" && PrintList([e]) == PrintElement(e);
    assert [CHUNKED][1..] == [];
    assert PrintHeader(CHUNKED) == "Transfer-Encoding" + [':'] + " " + ("chunked" + [CR, LF]);
    assert PrintHeaders([CHUNKED]) == PrintHeader(CHUNKED) + PrintHeaders([]);
  }

  lemma ChunkedHeeded(b: Block)
    requires b.flags == NO_FLAGS
    ensures IsHeader(CHUNKED)
    ensures HeedAll(b, [CHUNKED]) == Heeded(b.(flags := NO_FLAGS.(chunked := true, transferEncoding := true)))
  {
    ChunkedAndGzip();
    CodingHeeded(b, "chunked");
    hide IsHeader, Heed, Is, TokenChars, AllTokens;
    assert [CHUNKED][1..] == [];
  }

  lemma StatusText()
    ensures IsStatusLine(LINE) && PrintStatusLine(LINE) == "HTTP/1.1 200 OK\r\n" && CodeValue(LINE.code, 3) == 200
  {
  }

  lemma BodyText()
    ensures PrintBody(HELLO) == "5\r\nhello\r\n0\r\n\r\n"
    ensures BodyEvents(HELLO) ==
            [ChunkHeader(5), Data(BodyData, "hello"), ChunkComplete, ChunkHeader(0), ChunkComplete, MessageComplete]
  {
    var c := Chunk("5", "", "hello");
    assert [c][..0] == [];
    assert PrintChunks([c]) == PrintChunk(c);
  }

  lemma ResponseText()
    ensures PrintResponse(OK) == OK_TEXT
  {
    StatusText();
    ChunkedText();
    BodyText();
    hide PrintStatusLine, PrintHeaders, PrintBody, IsStatusLine;
  }

  lemma HelloIsChunked(cfg: Settings, flags: Flags)
    requires 30 <= cfg.maxHeaderSize
    ensures AreChunks(cfg, flags, HELLO)
  {
    assert "5"[..0] == "" && "0"[..0] == "";
    assert IsChunk(cfg, Chunk("5", "", "hello"));
  }

  lemma ResponseFits(cfg: Settings)
    requires 60 <= cfg.maxHeaderSize && cfg.onHeadersComplete(SHOWN_OK) == ProceedToBody
    ensures IsResponse(cfg, InitParser(Response), OK) && |PrintStatusLine(LINE)| <= cfg.maxHeaderSize
    ensures HeadInfo(ResponseSays(cfg, InitParser(Response), OK)) == SHOWN_OK
  {
    StatusText();
    ChunkedText();
    ChunkedHeeded(Block(NO_FLAGS, ULLONG_MAX));
    var s := StatusLineRead(InitParser(Response), LINE);
    assert s.flags == NO_FLAGS && s.contentLength == ULLONG_MAX && s.nread == 17;
    hide PrintStatusLine, PrintHeaders, IsStatusLine, IsHeader, HeedAll, AreChunks, CodeValue;
    var m := Says(s, Block(NO_FLAGS.(chunked := true, transferEncoding := true), ULLONG_MAX));
    HelloIsChunked(cfg, Headed(cfg, m).flags);
    assert HeadInfo(m) == SHOWN_OK;
  }

  lemma ResponseReported(cfg: Settings)
    requires IsResponse(cfg, InitParser(Response), OK) && HeadInfo(ResponseSays(cfg, InitParser(Response), OK)) == SHOWN_OK
    ensures ResponseReport(cfg, InitParser(Response), OK) == REPORT_OK
  {
    hide IsResponse, ResponseSays, HeadInfo, BodyEvents, BlockReport;
    BodyText();
    FieldReported();
  }

  lemma FieldReported()
    ensures BlockReport([CHUNKED]) == [Data(HeaderFieldData, "Transfer-Encoding"), Data(HeaderValueData, "chunked")]
  {
    assert [CHUNKED][1..] == [];
    var e := Element(0, "chunked", 0);
    assert PrintElement(e) == "chunked" && PrintList([e]) == PrintElement(e);
  }

  /** A response in chunks, read by a new parser. */
  lemma ChunkedResponse(cfg: Settings)
    requires 60 <= cfg.maxHeaderSize && cfg.onHeadersComplete(SHOWN_OK) == ProceedToBody
    ensures var r := Run(cfg, InitParser(Response), OK_TEXT);
            && !r.Failed? && r.parser.state == StartRes
            && Join(r.events) == REPORT_OK
  {
    hide AtRest, Run, Join, IsResponse, ResponseReport, PrintResponse, Headed, HeadInfo, PrintStatusLine;
    InitAtRest(cfg, Response);
    ResponseFits(cfg);
    ResponseText();
    ResponseReported(cfg);
    ReadResponse(cfg, InitParser(Response), OK);
    ReportsJoined();
    HeadedKind(cfg, ResponseSays(cfg, InitParser(Response), OK));
  }

  lemma HeadedKind(cfg: Settings, m: Parser)
    ensures Headed(cfg, m).kind == m.kind
  {
  }
}
