/** The framing of a message by the rules of section 3.3.3 of RFC 7230, from its start line and its header
    fields, and exactly when the parser frames it otherwise. */
module HttpStandard {
  import opened Wrappers
  import opened HttpTypes
  import opened HttpMachine
  import opened HttpBatch
  import opened HttpNumbers
  import opened HttpHeaderNames
  import opened HttpHeaderLists
  import opened HttpHeaders
  import opened HttpFields
  import opened HttpExchange

  // ----- the rules of section 3.3.3

  /** Rules 1 and 2, the answer of the callback telling what a response answers: HEAD if it is to be read
      without a body, CONNECT if another protocol follows. */
  predicate Bodiless(kind: ParserType, code: nat, reply: HeadersReply) {
    kind == Response && (NoBodyStatus(kind, code) || !reply.ProceedToBody?)
  }

  predicate NoBodyStatus(kind: ParserType, code: nat) {
    kind == Response && (code / 100 == 1 || code == 204 || code == 304)
  }

  /** Rules 1 to 7. A Content-Length beside a Transfer-Encoding "ought to be handled as an error", which is how
      rule 3 is taken here. */
  ghost function StandardFraming(kind: ParserType, code: nat, hs: seq<Header>, reply: HeadersReply): Framing {
    if Bodiless(kind, code, reply) then Nothing
    else if Any(hs, NamesCoding) then
      if LengthOf(hs).Some? then Unframed(UnexpectedContentLength)
      else if FinalChunked(hs) then Chunked
      else if kind == Request then Unframed(InvalidTransferEncoding)
      else UntilClose
    else if LengthOf(hs).Some? then
      if LengthOf(hs).value == 0 then Nothing else Sized(LengthOf(hs).value)
    else if kind == Request then Nothing
    else UntilClose
  }

  /** What a framing makes of the body: a message that another protocol follows ends with its head. */
  function BodyOf(f: Framing): Framing { if f == Elsewhere then Nothing else f }

  // ----- what the parser goes by

  /** A coding and a length: the parser refuses the message. */
  ghost predicate CodedAndSized(hs: seq<Header>) { Any(hs, BeginsCoding) && LengthOf(hs).Some? }

  /** The parser leaves behind the head, since another protocol follows. */
  ghost predicate Leaves(kind: ParserType, verb: nat, code: nat, hs: seq<Header>, reply: HeadersReply) {
    && (AsksUpgrade(kind, verb, code, hs) || reply.SkipBodyAndUpgrade?)
    && (verb == CONNECT || !reply.ProceedToBody?
        || !(Any(hs, HeardChunked) || (LengthOf(hs).Some? && LengthOf(hs).value > 0)))
  }

  // ----- where the parser differs

  /** It refuses a length beside a name that only begins with transfer-encoding, and a length beside a coding
      in a response that has no body anyway. */
  ghost predicate RefusesMore(kind: ParserType, code: nat, hs: seq<Header>, reply: HeadersReply) {
    CodedAndSized(hs) && (!Any(hs, NamesCoding) || Bodiless(kind, code, reply))
  }

  /** It reads a body that its header fields describe behind a status that never has one. */
  ghost predicate ReadsBodiless(kind: ParserType, verb: nat, code: nat, hs: seq<Header>, reply: HeadersReply) {
    && !CodedAndSized(hs) && NoBodyStatus(kind, code) && reply.ProceedToBody? && !Leaves(kind, verb, code, hs, reply)
    && (Any(hs, BeginsCoding) || (LengthOf(hs).Some? && LengthOf(hs).value > 0))
  }

  /** It leaves the body of a message unread, for another protocol or as the callback says. */
  ghost predicate LeavesUnread(kind: ParserType, verb: nat, code: nat, hs: seq<Header>, reply: HeadersReply) {
    && !CodedAndSized(hs) && !Bodiless(kind, code, reply) && (Leaves(kind, verb, code, hs, reply) || !reply.ProceedToBody?)
    && (Any(hs, NamesCoding) || if LengthOf(hs).Some? then LengthOf(hs).value > 0 else kind == Response)
  }

  /** It takes another coding than the final one, or, in a request, a name that only begins with
      transfer-encoding for a coding. */
  ghost predicate MistakesCoding(kind: ParserType, verb: nat, code: nat, hs: seq<Header>, reply: HeadersReply) {
    && !CodedAndSized(hs) && !NoBodyStatus(kind, code) && reply.ProceedToBody? && !Leaves(kind, verb, code, hs, reply)
    && if Any(hs, NamesCoding) then Any(hs, HeardChunked) != FinalChunked(hs) else Any(hs, BeginsCoding) && kind == Request
  }

  ghost predicate Deviates(kind: ParserType, verb: nat, code: nat, hs: seq<Header>, reply: HeadersReply) {
    || RefusesMore(kind, code, hs, reply) || ReadsBodiless(kind, verb, code, hs, reply)
    || LeavesUnread(kind, verb, code, hs, reply) || MistakesCoding(kind, verb, code, hs, reply)
  }

  /** The name that is looked for begins as itself. */
  lemma CodingBegins(h: Header)
    ensures NamesCoding(h) ==> BeginsCoding(h)
  {
    hide Fits;
    assert |Known(3)| == 17;
  }

  lemma AnyImplies(hs: seq<Header>, p: Header -> bool, q: Header -> bool)
    requires forall h :: p(h) ==> q(h)
    ensures Any(hs, p) ==> Any(hs, q)
  {
  }

  lemma {:induction false} CodingsNamed(hs: seq<Header>)
    ensures Codings(hs) != [] ==> Any(hs, NamesCoding)
    decreases |hs|
  {
    hide NamesCoding, Any;
    if hs != [] {
      AnyFirst(hs, NamesCoding);
      CodingsNamed(hs[1..]);
    }
  }

  /** A final coding has a field that names it, and such a field has a name that begins as it should. */
  lemma Implications(hs: seq<Header>)
    ensures FinalChunked(hs) ==> Any(hs, NamesCoding)
    ensures Any(hs, HeardChunked) ==> Any(hs, NamesCoding)
    ensures Any(hs, NamesCoding) ==> Any(hs, BeginsCoding)
  {
    hide KindOf, BeginsCoding;
    CodingsNamed(hs);
    forall h
      ensures NamesCoding(h) ==> BeginsCoding(h)
    {
      CodingBegins(h);
    }
    AnyImplies(hs, HeardChunked, NamesCoding);
    AnyImplies(hs, NamesCoding, BeginsCoding);
  }

  /** Whether the parser leaves, from the header fields. */
  lemma LeavesMeans(s: Parser, b: Block, hs: seq<Header>, reply: HeadersReply)
    requires Means(b, hs)
    ensures (FramingOf(Says(s, b), reply) == Elsewhere) <==> !CodedAndSized(hs) && Leaves(s.kind, s.verb, s.statusCode, hs, reply)
  {
    hide Any, SaysToken, LengthOf;
  }

  /** The parser frames a message as section 3.3.3 says if and only if it does not deviate in one of the four ways. */
  lemma FollowsStandard(s: Parser, hs: seq<Header>, reply: HeadersReply)
    requires s.kind != Both && forall i :: 0 <= i < |hs| ==> IsHeader(hs[i])
    requires HeedAll(Block(NO_FLAGS, ULLONG_MAX), hs).Heeded?
    ensures var m := Says(s, HeedAll(Block(NO_FLAGS, ULLONG_MAX), hs).block);
            BodyOf(FramingOf(m, reply)) == StandardFraming(s.kind, s.statusCode, hs, reply) <==>
            !Deviates(s.kind, s.verb, s.statusCode, hs, reply)
  {
    hide IsHeader, HeedAll, Any, SaysToken, LengthOf, UpgradeRequested, Leaves, FinalChunked;
    BlockMeans(Block(NO_FLAGS, ULLONG_MAX), hs);
    Implications(hs);
    LeavesMeans(s, HeedAll(Block(NO_FLAGS, ULLONG_MAX), hs).block, hs, reply);
  }

  // ----- where it deviates

  lemma ContentLengthName()
    ensures KindOf("Content-Length").LengthKind? && !FlagsAfterName(NO_FLAGS, "Content-Length").transferEncoding
  {
    assert Names("Content-Length", "content-length");
    assert !Names("Content-Length", "connection") by {
      assert "Content-Length"[3] == 't';
    }
  }

  const FIVE := Header("Content-Length", " ", Length("5", 0))

  lemma FiveHeeded()
    ensures IsHeader(FIVE) && LengthOf([FIVE]) == Some(5)
    ensures HeedAll(Block(NO_FLAGS, ULLONG_MAX), [FIVE]) == Heeded(Block(NO_FLAGS.(contentLength := true), 5))
  {
    hide KindOf;
    ContentLengthName();
    assert Decimal(0, "5") == 5;
    assert [FIVE][1..] == [];
  }

  /** A response with a status that never has a body is read with one, as its Content-Length says. */
  lemma NoContentIsRead(s: Parser)
    requires s.kind == Response && s.statusCode == 204 && s.verb != CONNECT
    ensures IsHeader(FIVE) && HeedAll(Block(NO_FLAGS, ULLONG_MAX), [FIVE]).Heeded?
    ensures var m := Says(s, HeedAll(Block(NO_FLAGS, ULLONG_MAX), [FIVE]).block);
            && FramingOf(m, ProceedToBody) == Sized(5)
            && StandardFraming(s.kind, s.statusCode, [FIVE], ProceedToBody) == Nothing
  {
    hide IsHeader, HeedAll;
    FiveHeeded();
  }

  lemma TransferEncodingName()
    ensures KindOf("Transfer-Encoding").CodingKind?
    ensures FlagsAfterName(NO_FLAGS, "Transfer-Encoding") == NO_FLAGS.(transferEncoding := true)
  {
    var name := "Transfer-Encoding";
    assert Names(name, "transfer-encoding");
    NotNamed(name, "connection");
    NotNamed(name, "proxy-connection");
    NotNamed(name, "content-length");
  }

  lemma NotNamed(name: Bytes, word: string)
    requires |name| >= |word| > 0 && Token(name[0]) != word[0]
    ensures !Names(name, word)
  {
    assert name[..|word|][0] == name[0];
  }

  function Coding(word: Bytes): Header { Header("Transfer-Encoding", " ", List([Element(0, word, 0)])) }

  lemma CodingHeeded(b: Block, word: Bytes)
    requires word != [] && TokenChars(word) && AllTokens("Transfer-Encoding")
    ensures IsHeader(Coding(word))
    ensures Heed(b, Coding(word)) ==
            Heeded(b.(flags := b.flags.(transferEncoding := true, chunked := b.flags.chunked || Is(word, "chunked"))))
  {
    hide KindOf, AllTokens, TokenChars, Is;
    TransferEncodingName();
    var es := [Element(0, word, 0)];
    assert es[..0] == [];
    assert Hears(false, es, 0);
  }

  /** Chunked in one field and gzip in the next: the parser reads chunks, though chunked is not the final
      coding. The standard refuses such a request, and reads such a response until the connection is closed. */
  lemma ChunkedThenGzip(s: Parser)
    requires s.verb != CONNECT && s.kind != Both && !NoBodyStatus(s.kind, s.statusCode)
    ensures var hs := [Coding("chunked"), Coding("gzip")];
            && IsHeader(hs[0]) && IsHeader(hs[1]) && HeedAll(Block(NO_FLAGS, ULLONG_MAX), hs).Heeded?
            && FramingOf(Says(s, HeedAll(Block(NO_FLAGS, ULLONG_MAX), hs).block), ProceedToBody) == Chunked
            && StandardFraming(s.kind, s.statusCode, hs, ProceedToBody) ==
               if s.kind == Request then Unframed(InvalidTransferEncoding) else UntilClose
  {
    hide IsHeader, Heed, TokenChars;
    var hs := [Coding("chunked"), Coding("gzip")];
    var b := Block(NO_FLAGS, ULLONG_MAX);
    ChunkedAndGzip();
    CodingHeeded(b, "chunked");
    CodingHeeded(Heed(b, hs[0]).block, "gzip");
    assert HeedAll(Heed(b, hs[0]).block, hs[1..]) == Heed(Heed(b, hs[0]).block, hs[1]);
    ChunkedThenGzipMeans();
  }

  lemma ChunkedAndGzip()
    ensures Is("chunked", "chunked") && !Is("gzip", "chunked")
    ensures TokenChars("chunked") && TokenChars("gzip") && AllTokens("Transfer-Encoding")
  {
  }

  lemma ChunkedThenGzipMeans()
    ensures var hs := [Coding("chunked"), Coding("gzip")];
            !FinalChunked(hs) && LengthOf(hs).None? && Any(hs, NamesCoding)
  {
    hide KindOf, Is;
    TransferEncodingName();
    ChunkedAndGzip();
    var hs := [Coding("chunked"), Coding("gzip")];
    assert Codings(hs[1..]) == [Element(0, "gzip", 0)] by {
      assert hs[1..][1..] == [];
    }
    assert NamesCoding(hs[0]);
    assert LengthOf(hs[1..]).None?;
  }

  const NOTE := Header("Transfer-Encodings", "", Text([]))

  lemma NoteTokens()
    ensures AllTokens("Transfer-Encodings")
  {
  }

  lemma NoteFlags()
    ensures FlagsAfterName(NO_FLAGS, "Transfer-Encodings") == NO_FLAGS.(transferEncoding := true)
  {
    hide Fits;
    TransferEncodingName();
    assert "Transfer-Encodings"[..17] == "Transfer-Encoding"[..17];
  }

  lemma NoteKind()
    ensures KindOf("Transfer-Encodings").OtherKind?
  {
    hide Fits;
    var name := "Transfer-Encodings";
    NotNamed(name, "connection");
    NotNamed(name, "proxy-connection");
    NotNamed(name, "content-length");
    NotNamed(name, "upgrade");
    assert name[17] != ' ';
  }

  lemma NoteMeans()
    ensures !Any([NOTE], NamesCoding) && LengthOf([NOTE]).None?
  {
    hide KindOf;
    NoteKind();
    assert !HasLength(NOTE) && [NOTE][1..] == [];
  }

  /** A request with a header field whose name only begins with transfer-encoding is refused. */
  lemma LongerNameIsRefused(s: Parser)
    requires s.kind == Request && s.verb != CONNECT
    ensures IsHeader(NOTE) && HeedAll(Block(NO_FLAGS, ULLONG_MAX), [NOTE]).Heeded?
    ensures var m := Says(s, HeedAll(Block(NO_FLAGS, ULLONG_MAX), [NOTE]).block);
            && FramingOf(m, ProceedToBody) == Unframed(InvalidTransferEncoding)
            && StandardFraming(s.kind, s.statusCode, [NOTE], ProceedToBody) == Nothing
  {
    hide KindOf, AllTokens;
    NoteTokens();
    NoteFlags();
    NoteKind();
    assert [NOTE][1..] == [];
    NoteMeans();
  }
}
