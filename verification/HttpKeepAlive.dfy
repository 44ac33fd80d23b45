/** Whether the connection is kept: `should_keep_alive`, when the headers-complete callback asks and behind a
    message, against version, header fields, status code and body. */
module HttpKeepAlive {
  import opened HttpTypes
  import opened HttpMachine
  import opened HttpRun
  import opened HttpTrace
  import opened HttpBatch
  import opened HttpNumbers
  import opened HttpHeaderNames
  import opened HttpHeaderLists
  import opened HttpHeaders
  import opened HttpFields
  import opened HttpFraming
  import opened HttpMessages
  import opened HttpExchange
  import opened HttpStandard

  // ----- behind a body

  /** A token that is heard in a Connection header field of the head, or of the trailer. */
  ghost predicate HeardIn(hs: seq<Header>, body: Body, known: string) {
    SaysToken(hs, known) || (body.Chunks? && SaysToken(body.trailers, known))
  }

  /** A body that is asked for: what its trailer says, and that no request has an open one. */
  lemma BodySays(cfg: Settings, m: Parser, body: Body)
    requires Frames(cfg, m, body)
    ensures var before, after := Headed(cfg, m).flags, BodyFlags(Headed(cfg, m).flags, body);
            && after.connectionClose == (before.connectionClose || (body.Chunks? && SaysToken(body.trailers, "close")))
            && after.connectionKeepAlive ==
               (before.connectionKeepAlive || (body.Chunks? && SaysToken(body.trailers, "keep-alive")))
            && after.skipBody == before.skipBody && after.chunked == before.chunked
            && (body.Chunks? ==> before.chunked) && (!body.Chunks? ==> after == before)
    ensures m.kind == Request ==> !body.Open?
  {
    hide SaysToken, IsHeader, HeedAll, Reply, UpgradeRequested, IsChunk, IsSizeLine, PrintHeaders, Any, LengthOf;
    if body.Chunks? {
      BlockSays(Block(Headed(cfg, m).flags.(trailing := true), 0), body.trailers);
      BlockMeans(Block(Headed(cfg, m).flags.(trailing := true), 0), body.trailers);
      HeedAllKeeps(Block(Headed(cfg, m).flags.(trailing := true), 0), body.trailers);
    }
  }

  /** The parser behind a body, as far as the connection is concerned. */
  lemma Behind(s: Parser, body: Body, r: Outcome, n: nat)
    requires Done(s, body, r, n)
    ensures !r.Failed? && r.parser.kind == s.kind && r.parser.statusCode == s.statusCode
    ensures r.parser.httpMajor == s.httpMajor && r.parser.httpMinor == s.httpMinor
    ensures body.Open? ==> r.parser.flags == s.flags && r.parser.contentLength == s.contentLength
    ensures !body.Open? ==> SameButTrailing(r.parser.flags, BodyFlags(s.flags, body))
    ensures body.Empty? ==> r.parser.contentLength == s.contentLength
    ensures body.Plain? ==> r.parser.contentLength == 0
  {
    hide BodyFlags, Carried;
  }

  // ----- requests

  /** A parser that the callback is handed with this information. */
  predicate Shows(x: Parser, info: MessageInfo) {
    && x.kind == info.kind && x.flags == info.flags && x.contentLength == info.contentLength
    && x.httpMajor == info.httpMajor && x.httpMinor == info.httpMinor && x.statusCode == info.statusCode
  }

  /** Whether the connection is kept, at the end of the head of a request. */
  lemma ShownRequestKeeps(s: Parser, q: HttpRequest, x: Parser)
    requires IsSound(q) && s.kind == Request && Shows(x, RequestInfo(s, q))
    ensures ShouldKeepAlive(x) <==>
            if q.line.major > '0' && q.line.minor > '0' then !SaysToken(q.headers, "close")
            else SaysToken(q.headers, "keep-alive")
  {
    hide SaysToken, HeedAll, Any, LengthOf;
  }

  /** And behind a request: from HTTP/1.1 on unless "close" is heard in a Connection header, before that only if
      "keep-alive" is. */
  lemma KeepsConnection(cfg: Settings, s: Parser, q: HttpRequest)
    requires AtRest(cfg, s) && s.state == StartReq && s.kind == Request && IsSound(q) && IsRequest(cfg, s, q)
    ensures var r := Run(cfg, s, PrintRequest(q));
            !r.Failed? &&
            (ShouldKeepAlive(r.parser) <==>
              if q.line.major > '0' && q.line.minor > '0' then !HeardIn(q.headers, q.body, "close")
              else HeardIn(q.headers, q.body, "keep-alive"))
  {
    hide AtRest, Run, PrintRequest, SaysToken, IsHeader, Join, RequestReport, HeedAll, Frames;
    ReadRequest(cfg, s, q);
    RequestStarts(s, q.line);
    VersionOf(s, q.line);
    BlockSays(Block(NO_FLAGS, ULLONG_MAX), q.headers);
    hide IsRequestLine, RequestLineRead, IsSound, PrintRequestLine;
    BodySays(cfg, RequestSays(s, q), q.body);
    hide IsRequest, BodyFlags;
    Behind(Headed(cfg, RequestSays(s, q)), q.body, Run(cfg, s, PrintRequest(q)), |PrintRequest(q)|);
  }

  lemma VersionOf(s: Parser, l: RequestLine)
    requires IsRequestLine(l)
    ensures var s' := RequestLineRead(s, l); (s'.httpMajor > 0 <==> l.major > '0') && (s'.httpMinor > 0 <==> l.minor > '0')
  {
  }

  // ----- responses

  /** At the end of the head of a response, before the callback has answered. */
  lemma ShownResponseKeeps(cfg: Settings, s: Parser, p: HttpResponse, x: Parser)
    requires IsResponse(cfg, s, p) && s.kind == Response && Shows(x, ResponseInfo(cfg, s, p))
    ensures IsStatusLine(p.line)
    ensures var code := 100 * Digit(p.line.code[0]) + 10 * Digit(p.line.code[1]) + Digit(p.line.code[2]);
            ShouldKeepAlive(x) <==>
              && (if p.line.major > '0' && p.line.minor > '0' then !SaysToken(p.headers, "close")
                  else SaysToken(p.headers, "keep-alive"))
              && (code / 100 == 1 || code == 204 || code == 304 || Any(p.headers, HeardChunked)
                  || (LengthOf(p.headers).Some? && !Any(p.headers, BeginsCoding)))
  {
    hide SaysToken, HeedAll, Any, LengthOf;
    InRange(cfg, s, p);
  }

  /** A length that is heeded is not the sentinel. */
  lemma InRange(cfg: Settings, s: Parser, p: HttpResponse)
    requires IsResponse(cfg, s, p)
    ensures IsStatusLine(p.line)
    ensures LengthOf(p.headers).Some? ==> LengthOf(p.headers).value < 0xFFFF_FFFF_FFFF_FFFF
  {
    hide IsHeader, HeedAll, Any, SaysToken, LengthOf, Frames;
    ResponseStarts(s, p.line);
    BlockMeans(Block(NO_FLAGS, ULLONG_MAX), p.headers);
  }

  lemma FramesSay(cfg: Settings, m: Parser, body: Body)
    requires Frames(cfg, m, body)
    ensures body.Plain? ==> m.contentLength < ULLONG_MAX && !m.flags.transferEncoding && !m.flags.chunked
    ensures body.Chunks? ==> m.flags.chunked
  {
    hide UpgradeRequested, Reply, AreChunks;
  }

  /** Behind a response the trailer counts as well, and so does an answer that there is no body. */
  lemma KeepsAfterResponse(cfg: Settings, s: Parser, p: HttpResponse)
    requires AtRest(cfg, s) && s.state == StartRes && s.kind == Response && IsResponse(cfg, s, p)
    requires s.nread + |PrintStatusLine(p.line)| <= cfg.maxHeaderSize
    ensures IsStatusLine(p.line)
    ensures var code := 100 * Digit(p.line.code[0]) + 10 * Digit(p.line.code[1]) + Digit(p.line.code[2]);
            var r := Run(cfg, s, PrintResponse(p));
            !r.Failed? &&
            (ShouldKeepAlive(r.parser) <==>
              && (if p.line.major > '0' && p.line.minor > '0' then !HeardIn(p.headers, p.body, "close")
                  else HeardIn(p.headers, p.body, "keep-alive"))
              && (code / 100 == 1 || code == 204 || code == 304 || Any(p.headers, HeardChunked)
                  || (LengthOf(p.headers).Some? && !Any(p.headers, BeginsCoding))
                  || (cfg.onHeadersComplete)(ResponseInfo(cfg, s, p)) != ProceedToBody))
  {
    hide AtRest, Run, Join, PrintResponse, PrintStatusLine, SaysToken, IsHeader, HeedAll, ResponseReport, Frames, Any,
      LengthOf, BodyFlags, UpgradeRequested;
    ReadResponse(cfg, s, p);
    InRange(cfg, s, p);
    var m := ResponseSays(cfg, s, p);
    BodySays(cfg, m, p.body);
    FramesSay(cfg, m, p.body);
    Behind(Headed(cfg, m), p.body, Run(cfg, s, PrintResponse(p)), |PrintResponse(p)|);
    var r := Run(cfg, s, PrintResponse(p));
    var x := r.parser;
    assert x.flags.skipBody <==> (cfg.onHeadersComplete)(ResponseInfo(cfg, s, p)) != ProceedToBody;
    assert !p.body.Chunks? ==> (x.contentLength != ULLONG_MAX <==> LengthOf(p.headers).Some?);
    assert (x.httpMajor > 0 && x.httpMinor > 0) <==> (p.line.major > '0' && p.line.minor > '0');
  }

  /** Against the framing: in front of a body until close the connection is not kept, except behind a status that
      should have no body; in front of any other body, or of none, it may be kept, unless another protocol
      follows. */
  lemma KeptAsFramed(cfg: Settings, s: Parser, p: HttpResponse)
    requires IsResponse(cfg, s, p) && s.kind == Response
    ensures var m := ResponseSays(cfg, s, p);
            var reply := (cfg.onHeadersComplete)(ResponseInfo(cfg, s, p));
            var code := m.statusCode;
            var kept := code / 100 == 1 || code == 204 || code == 304 || Any(p.headers, HeardChunked)
                        || (LengthOf(p.headers).Some? && !Any(p.headers, BeginsCoding)) || reply != ProceedToBody;
            && (FramingOf(m, reply) == UntilClose ==> (kept <==> code / 100 == 1 || code == 204 || code == 304))
            && (FramingOf(m, reply) != UntilClose && FramingOf(m, reply) != Elsewhere && !FramingOf(m, reply).Unframed? ==> kept)
  {
    hide SaysToken, HeedAll, Any, LengthOf, UpgradeRequested, Frames, IsHeader;
    InRange(cfg, s, p);
  }

  /** The exception: a 204 response with `Transfer-Encoding: gzip` is read until close, and the connection kept. */
  lemma OpenButKept(s: Parser)
    requires s.kind == Response && s.statusCode == 204 && s.verb != CONNECT && s.httpMajor == 1 && s.httpMinor == 1
    ensures var hs := [Coding("gzip")];
            && IsHeader(hs[0]) && HeedAll(Block(NO_FLAGS, ULLONG_MAX), hs).Heeded?
            && var m := Says(s, HeedAll(Block(NO_FLAGS, ULLONG_MAX), hs).block);
               FramingOf(m, ProceedToBody) == UntilClose && ShouldKeepAlive(m)
  {
    hide IsHeader, Heed, TokenChars, AllTokens;
    var hs := [Coding("gzip")];
    ChunkedAndGzip();
    CodingHeeded(Block(NO_FLAGS, ULLONG_MAX), "gzip");
    assert hs[1..] == [];
  }
}
