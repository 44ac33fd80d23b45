/** Message bodies, as section 3.3.3 and section 4.1 of RFC 7230 frame them, against what
    the parser reports. */
module HttpFraming {
  import opened HttpTypes
  import opened HttpMachine
  import opened HttpInvariant
  import opened HttpTrace
  import opened HttpRun
  import opened HttpBatch
  import opened HttpNumbers

  /** One chunk: its size in hexadecimal, its extension, and its data. */
  datatype Chunk = Chunk(size: Bytes, ext: Bytes, data: Bytes)

  /** A chunk extension as the parser takes it: nothing, or ';' or a space and then anything but CR. */
  predicate IsExtension(ext: Bytes) {
    ext == [] || ((ext[0] == ';' || ext[0] == ' ') && forall i :: 0 <= i < |ext| ==> ext[i] != CR)
  }

  predicate IsSizeLine(cfg: Settings, size: Bytes, ext: Bytes, n: nat) {
    && size != [] && AllHex(size) && Hexadecimal(0, size) == n && n <= MAX_HEX
    && IsExtension(ext)
    && |size| + |ext| + 2 <= cfg.maxHeaderSize
  }

  predicate IsChunk(cfg: Settings, c: Chunk) {
    IsSizeLine(cfg, c.size, c.ext, |c.data|) && c.data != []
  }

  function SizeLine(size: Bytes, ext: Bytes): Bytes { size + ext + [CR, LF] }

  function PrintChunk(c: Chunk): Bytes { SizeLine(c.size, c.ext) + c.data + [CR, LF] }

  function PrintChunks(chunks: seq<Chunk>): Bytes {
    var n := |chunks|;
    if n == 0 then [] else PrintChunks(chunks[..n - 1]) + PrintChunk(chunks[n - 1])
  }

  /** The callbacks for a list of chunks. */
  function ChunkTrace(chunks: seq<Chunk>): seq<Event> {
    var n := |chunks|;
    if n == 0 then []
    else ChunkTrace(chunks[..n - 1]) +
         [ChunkHeader(|chunks[n - 1].data|), Data(BodyData, chunks[n - 1].data), ChunkComplete]
  }

  // ----- single bytes

  lemma ChunkOnce(cfg: Settings, s: Parser, ch: Byte)
    requires Inv(s)
    ensures GroupOf(s.state) == ChunkLineGroup ==> Once(cfg, s, ch) == ChunkLine(s, ch)
    ensures GroupOf(s.state) == ChunkBodyGroup ==> Once(cfg, s, ch) == ChunkBody(s)
    ensures s.state == HeaderFieldStart && ch == CR ==> Once(cfg, s, ch) == Consume(s.(state := HeadersAlmostDone), Quiet)
  {
    hide Inv, ChunkLine, ChunkBody, StartField, FieldByte;
  }

  lemma SizeStartByte(cfg: Settings, s: Parser, c: Byte)
    requires AtRest(cfg, s) && s.state == ChunkSizeStart && Unhex(c) != -1 && 1 <= cfg.maxHeaderSize
    ensures StepByte(cfg, s, c) == Running(s.(contentLength := Unhex(c), state := ChunkSize, nread := 1), [])
  {
    hide Inv, AtRest, Once, StepByte, CountedByte, Unhex;
    RestsAtChunk(cfg, s);
    CountKeepsInv(cfg, s);
    ChunkOnce(cfg, Count(s), c);
    StepConsume(cfg, s, c, s.(contentLength := Unhex(c), state := ChunkSize, nread := 1), Quiet);
  }

  lemma SizeStep(s: Parser, c: Byte)
    requires s.state == ChunkSize && Unhex(c) != -1
    ensures var n := s.contentLength * 16 + Unhex(c);
            ChunkLine(s, c) == if n <= MAX_HEX then Consume(s.(contentLength := n), Quiet) else Fail(InvalidContentLength)
  {
  }

  lemma SizeByte(cfg: Settings, s: Parser, c: Byte)
    requires AtRest(cfg, s) && s.state == ChunkSize && Unhex(c) != -1 && s.nread + 1 <= cfg.maxHeaderSize
    ensures var n := s.contentLength * 16 + Unhex(c);
            StepByte(cfg, s, c) ==
              if n <= MAX_HEX then Running(s.(contentLength := n, nread := s.nread + 1), [])
              else Failed(InvalidContentLength, 0)
  {
    hide Inv, AtRest, Once, StepByte, CountedByte, Unhex, ChunkLine;
    UnhexRange(c);
    CountKeepsInv(cfg, s);
    ChunkOnce(cfg, Count(s), c);
    SizeStep(Count(s), c);
    var n := s.contentLength * 16 + Unhex(c);
    if n <= MAX_HEX {
      StepConsume(cfg, s, c, Count(s).(contentLength := n), Quiet);
    } else {
      StepFail(cfg, s, c, InvalidContentLength);
    }
  }

  lemma ExtensionByte(cfg: Settings, s: Parser, c: Byte)
    requires AtRest(cfg, s) && c != CR && s.nread + 1 <= cfg.maxHeaderSize
    requires s.state == ChunkParameters || (s.state == ChunkSize && (c == ';' || c == ' '))
    ensures StepByte(cfg, s, c) == Running(s.(state := ChunkParameters, nread := s.nread + 1), [])
  {
    hide Inv, AtRest, Once, StepByte, CountedByte;
    CountKeepsInv(cfg, s);
    ChunkOnce(cfg, Count(s), c);
    StepConsume(cfg, s, c, s.(state := ChunkParameters, nread := s.nread + 1), Quiet);
  }

  lemma SizeEndByte(cfg: Settings, s: Parser)
    requires AtRest(cfg, s) && (s.state == ChunkSize || s.state == ChunkParameters)
    requires s.nread + 1 <= cfg.maxHeaderSize
    ensures StepByte(cfg, s, CR) == Running(s.(state := ChunkSizeAlmostDone, nread := s.nread + 1), [])
  {
    hide Inv, AtRest, Once, StepByte, CountedByte;
    CountKeepsInv(cfg, s);
    ChunkOnce(cfg, Count(s), CR);
    StepConsume(cfg, s, CR, s.(state := ChunkSizeAlmostDone, nread := s.nread + 1), Quiet);
  }

  /** The parser when the line feed of a size line has been read. */
  function AfterSizeLine(s: Parser, n: nat): Parser {
    if n == 0 then s.(contentLength := n, nread := 0, flags := s.flags.(trailing := true), state := HeaderFieldStart)
    else s.(contentLength := n, nread := 0, state := ChunkData)
  }

  lemma SizeLineFeed(cfg: Settings, s: Parser)
    requires AtRest(cfg, s) && s.state == ChunkSizeAlmostDone && s.nread + 1 <= cfg.maxHeaderSize
    ensures StepByte(cfg, s, LF) ==
            Running(AfterSizeLine(s, s.contentLength), [ChunkHeader(s.contentLength)])
  {
    hide Inv, AtRest, Once, StepByte, CountedByte;
    CountKeepsInv(cfg, s);
    ChunkOnce(cfg, Count(s), LF);
    StepConsume(cfg, s, LF, AfterSizeLine(s, s.contentLength), Notify(ChunkHeader(s.contentLength)));
  }

  lemma DataEndByte(cfg: Settings, s: Parser)
    requires AtRest(cfg, s) && s.state == ChunkDataAlmostDone
    ensures StepByte(cfg, s, CR) == Running(s.(state := ChunkDataDone), [])
  {
    hide Inv, AtRest, Once, StepByte, CountedByte;
    InLimit(cfg, s);
    CountKeepsInv(cfg, s);
    ChunkOnce(cfg, s, CR);
    StepConsume(cfg, s, CR, s.(state := ChunkDataDone), Flush(BodyData));
  }

  lemma DataLineFeed(cfg: Settings, s: Parser)
    requires AtRest(cfg, s) && s.state == ChunkDataDone
    ensures StepByte(cfg, s, LF) == Running(s.(state := ChunkSizeStart, nread := 0), [ChunkComplete])
  {
    hide Inv, AtRest, Once, StepByte, CountedByte;
    InLimit(cfg, s);
    CountKeepsInv(cfg, s);
    ChunkOnce(cfg, s, LF);
    StepConsume(cfg, s, LF, s.(state := ChunkSizeStart, nread := 0), Notify(ChunkComplete));
  }

  lemma TrailerCr(cfg: Settings, s: Parser)
    requires AtRest(cfg, s) && s.state == HeaderFieldStart && s.nread + 1 <= cfg.maxHeaderSize
    ensures StepByte(cfg, s, CR) == Running(s.(state := HeadersAlmostDone, nread := s.nread + 1), [])
  {
    hide Inv, AtRest, Once, StepByte, CountedByte;
    CountKeepsInv(cfg, s);
    ChunkOnce(cfg, Count(s), CR);
    StepConsume(cfg, s, CR, s.(state := HeadersAlmostDone, nread := s.nread + 1), Quiet);
  }

  /** How a message ends: ready for the next one, or gone to another protocol. */
  function MessageEnd(s: Parser, events: seq<Event>, consumed: nat): Outcome {
    var s' := s.(state := StartState(s.kind));
    if s.upgrade then Left(s', events, consumed) else Running(s', events)
  }

  lemma DoneByte(cfg: Settings, s: Parser, ch: Byte)
    requires Inv(s) && s.state == MessageDone && s.nread <= cfg.maxHeaderSize
    ensures CountedByte(cfg, s, ch) == MessageEnd(s, [MessageComplete], 1)
  {
    hide Start, ResponseVersion, StatusLine, Method, Url, RequestVersion, Field, Value, EndOfValue, EndHeaders,
      ChooseBody, ChunkLine, ChunkBody, FieldState, ValueState, MethodName;
  }

  lemma TrailerLineFeed(cfg: Settings, s: Parser)
    requires AtRest(cfg, s) && s.state == HeadersAlmostDone && s.flags.trailing && s.nread + 1 <= cfg.maxHeaderSize
    ensures StepByte(cfg, s, LF) == MessageEnd(s.(nread := s.nread + 1), [ChunkComplete, MessageComplete], 1)
  {
    hide CountedByte, Inv;
    CountKeepsInv(cfg, s);
    TrailerCounted(cfg, Count(s));
  }

  lemma TrailerCounted(cfg: Settings, s: Parser)
    requires Inv(s) && s.state == HeadersAlmostDone && s.flags.trailing && s.nread <= cfg.maxHeaderSize
    ensures CountedByte(cfg, s, LF) == MessageEnd(s, [ChunkComplete, MessageComplete], 1)
  {
    hide Once, Inv, CountedByte;
    TrailerOnce(cfg, s);
    CountedAgain(cfg, s, LF, s.(state := MessageDone), Notify(ChunkComplete));
    DoneByte(cfg, s.(state := MessageDone), LF);
    assert [ChunkComplete] + [MessageComplete] == [ChunkComplete, MessageComplete];
  }

  lemma TrailerOnce(cfg: Settings, s: Parser)
    requires Inv(s) && s.state == HeadersAlmostDone && s.flags.trailing
    ensures Once(cfg, s, LF) == Again(s.(state := MessageDone), Notify(ChunkComplete))
  {
    hide Start, ResponseVersion, StatusLine, Method, Url, RequestVersion, Field, Value, EndOfValue,
      ChooseBody, Identity, ChunkLine, ChunkBody, FieldState, ValueState, MethodName;
  }

  // ----- lines and chunks

  lemma UnhexRange(c: Byte)
    ensures -1 <= Unhex(c) <= 15
  {
  }

  lemma {:induction false} RunSize(cfg: Settings, s: Parser, ds: Bytes)
    requires AtRest(cfg, s) && s.state == ChunkSizeStart && ds != [] && AllHex(ds) && |ds| <= cfg.maxHeaderSize
    ensures var n := Hexadecimal(0, ds);
            var r := Run(cfg, s, ds);
            if n <= MAX_HEX then r == Running(s.(contentLength := n, state := ChunkSize, nread := |ds|), [])
            else r.Failed? && r.errno == InvalidContentLength
    decreases |ds|
  {
    hide StepByte, AtRest, Unhex;
    var k := |ds|;
    UnhexRange(ds[k - 1]);
    if k == 1 {
      RunNil(cfg, s);
      SizeStartByte(cfg, s, ds[0]);
      assert Hexadecimal(0, ds[..0]) == 0;
    } else {
      RunSize(cfg, s, ds[..k - 1]);
      if Hexadecimal(0, ds[..k - 1]) <= MAX_HEX {
        SizeByte(cfg, Run(cfg, s, ds[..k - 1]).parser, ds[k - 1]);
      }
    }
  }

  lemma {:induction false} RunExtension(cfg: Settings, s: Parser, ext: Bytes)
    requires AtRest(cfg, s) && s.state == ChunkSize && IsExtension(ext) && s.nread + |ext| <= cfg.maxHeaderSize
    ensures Run(cfg, s, ext) ==
            Running(s.(state := if ext == [] then ChunkSize else ChunkParameters, nread := s.nread + |ext|), [])
    decreases |ext|
  {
    hide StepByte, Inv, AtRest;
    var k := |ext|;
    if k > 0 {
      RunExtension(cfg, s, ext[..k - 1]);
      ExtensionByte(cfg, Run(cfg, s, ext[..k - 1]).parser, ext[k - 1]);
    }
  }

  /** Two bytes, one after the other. */
  lemma RunTwo(cfg: Settings, s: Parser, a: Byte, b: Byte)
    requires AtRest(cfg, s)
    ensures var r := StepByte(cfg, s, a);
            Run(cfg, s, [a, b]) == if r.Running? then StepByte(cfg, r.parser, b).After(r.events, 1) else r.After([], 0)
  {
    hide StepByte, AtRest;
    RunNil(cfg, s);
    RunSnoc(cfg, s, [], a);
    RunSnoc(cfg, s, [a], b);
    assert [] + [a] == [a] && [a] + [b] == [a, b];
    var r := StepByte(cfg, s, a);
    assert r.Running? ==> [] + r.events == r.events;
  }

  lemma RunSizeEnd(cfg: Settings, s: Parser)
    requires AtRest(cfg, s) && (s.state == ChunkSize || s.state == ChunkParameters)
    requires s.nread + 2 <= cfg.maxHeaderSize
    ensures Run(cfg, s, [CR, LF]) == Running(AfterSizeLine(s, s.contentLength), [ChunkHeader(s.contentLength)])
  {
    hide StepByte, Inv, Run;
    RunTwo(cfg, s, CR, LF);
    SizeEndByte(cfg, s);
    SizeLineFeed(cfg, StepByte(cfg, s, CR).parser);
  }

  lemma RunSizeLine(cfg: Settings, s: Parser, size: Bytes, ext: Bytes, n: nat)
    requires AtRest(cfg, s) && s.state == ChunkSizeStart && IsSizeLine(cfg, size, ext, n)
    ensures Run(cfg, s, SizeLine(size, ext)) == Running(AfterSizeLine(s, n), [ChunkHeader(n)])
  {
    hide StepByte, Inv, AtRest, Run, Hexadecimal, AllHex, IsExtension;
    RestsAtChunk(cfg, s);
    RunSize(cfg, s, size);
    var s1 := Run(cfg, s, size).parser;
    RunExtension(cfg, s1, ext);
    RunAppend(cfg, s, size, ext);
    var s2 := Run(cfg, s1, ext).parser;
    RunAppend(cfg, s, size + ext, [CR, LF]);
    RunSizeEnd(cfg, s2);
  }

  lemma RunChunk(cfg: Settings, s: Parser, c: Chunk)
    requires AtRest(cfg, s) && s.state == ChunkSizeStart && IsChunk(cfg, c)
    ensures Run(cfg, s, PrintChunk(c)) ==
            Running(s.(contentLength := 0), [ChunkHeader(|c.data|)] + Singles(BodyData, c.data) + [ChunkComplete])
  {
    hide StepByte, Inv, Run, Singles, IsSizeLine, SizeLine;
    RestsAtChunk(cfg, s);
    hide AtRest;
    RunSizeLine(cfg, s, c.size, c.ext, |c.data|);
    var s1 := AfterSizeLine(s, |c.data|);
    RunAppend(cfg, s, SizeLine(c.size, c.ext), c.data);
    RunChunkData(cfg, s1, c.data);
    var s2 := Run(cfg, s1, c.data).parser;
    RunAppend(cfg, s, SizeLine(c.size, c.ext) + c.data, [CR, LF]);
    RunTwo(cfg, s2, CR, LF);
    DataEndByte(cfg, s2);
    DataLineFeed(cfg, StepByte(cfg, s2, CR).parser);
  }

  lemma RestsAtChunk(cfg: Settings, s: Parser)
    requires AtRest(cfg, s) && s.state == ChunkSizeStart
    ensures s.nread == 0
  {
  }

  lemma ChunkEvents(before: seq<Event>, trace: seq<Event>, data: Bytes)
    requires Join(before) == Join(trace) && data != []
    ensures Join(before + ([ChunkHeader(|data|)] + Singles(BodyData, data) + [ChunkComplete])) ==
            Join(trace + [ChunkHeader(|data|), Data(BodyData, data), ChunkComplete])
  {
    hide Join, Singles;
    var head := ChunkHeader(|data|);
    JoinSameTail(before, trace, [head]);
    JoinSameTail(before + [head], trace + [head], [Data(BodyData, [])]);
    JoinSpan(trace + [head], before + [head], BodyData, [], data);
    assert [] + data == data;
    JoinSameTail(before + [head] + Singles(BodyData, data), trace + [head] + [Data(BodyData, data)], [ChunkComplete]);
    assert before + ([head] + Singles(BodyData, data) + [ChunkComplete]) ==
           before + [head] + Singles(BodyData, data) + [ChunkComplete];
    assert trace + [head, Data(BodyData, data), ChunkComplete] ==
           trace + [head] + [Data(BodyData, data)] + [ChunkComplete];
  }

  lemma {:induction false} RunChunks(cfg: Settings, s: Parser, chunks: seq<Chunk>)
    requires AtRest(cfg, s) && s.state == ChunkSizeStart
    requires forall i :: 0 <= i < |chunks| ==> IsChunk(cfg, chunks[i])
    ensures var r := Run(cfg, s, PrintChunks(chunks));
            && r.Running? && r.parser == s.(contentLength := if chunks == [] then s.contentLength else 0)
            && Join(r.events) == Join(ChunkTrace(chunks))
    decreases |chunks|
  {
    hide StepByte, Inv, Run, Singles, IsChunk, PrintChunk, Join;
    var n := |chunks|;
    if n == 0 {
      RunNil(cfg, s);
    } else {
      var init, c := chunks[..n - 1], chunks[n - 1];
      RunChunks(cfg, s, init);
      var r := Run(cfg, s, PrintChunks(init));
      RunAppend(cfg, s, PrintChunks(init), PrintChunk(c));
      RunChunk(cfg, r.parser, c);
      assert c.data != [] by { ChunkHasData(cfg, c); }
      ChunkEvents(r.events, ChunkTrace(init), c.data);
    }
  }

  lemma ChunkHasData(cfg: Settings, c: Chunk)
    requires IsChunk(cfg, c)
    ensures c.data != []
  {
  }

  /** The empty line that ends the trailer after the last chunk. */
  lemma RunTrailer(cfg: Settings, s: Parser)
    requires AtRest(cfg, s) && s.state == HeaderFieldStart && s.flags.trailing && s.nread + 2 <= cfg.maxHeaderSize
    ensures Run(cfg, s, [CR, LF]) == MessageEnd(s.(nread := s.nread + 2), [ChunkComplete, MessageComplete], 2)
  {
    hide StepByte, Inv, Run;
    RunTwo(cfg, s, CR, LF);
    TrailerCr(cfg, s);
    TrailerLineFeed(cfg, s.(state := HeadersAlmostDone, nread := s.nread + 1));
  }

  /** A body of known length n > 0 is exactly n bytes, and then the message is complete. */
  lemma IdentityBody(cfg: Settings, s: Parser, body: Bytes)
    requires AtRest(cfg, s) && s.state == BodyIdentity && |body| == s.contentLength
    ensures var r := Run(cfg, s, body);
            && !r.Failed? && r == MessageEnd(s.(contentLength := 0), r.events, |body|)
            && Join(r.events) == [Data(BodyData, body), MessageComplete]
  {
    hide StepByte, Run, Join, Singles;
    IdentityNotEmpty(cfg, s);
    hide Inv;
    var n := |body|;
    var init, last := body[..n - 1], body[n - 1];
    assert body == init + [last];
    RunIdentity(cfg, s, init);
    RunSnoc(cfg, s, init, last);
    IdentityLastByte(cfg, s.(contentLength := 1), last);
    var r := Run(cfg, s, body);
    assert r.events == Singles(BodyData, body) + [MessageComplete] by {
      SinglesLast(BodyData, body);
      assert Singles(BodyData, init) + [Data(BodyData, [last]), MessageComplete] ==
             Singles(BodyData, init) + [Data(BodyData, [last])] + [MessageComplete];
    }
    JoinSpan([], [], BodyData, [], body);
    assert [] + [Data(BodyData, [])] == [Data(BodyData, [])] && [] + body == body;
    assert [] + Singles(BodyData, body) == Singles(BodyData, body);
    assert [] + [Data(BodyData, body)] == [Data(BodyData, body)];
    JoinSameTail([Data(BodyData, body)], Singles(BodyData, body), [MessageComplete]);
    JoinPair(body);
  }

  lemma JoinPair(body: Bytes)
    ensures Join([Data(BodyData, body)] + [MessageComplete]) == [Data(BodyData, body), MessageComplete]
  {
    JoinSnoc([Data(BodyData, body)], MessageComplete);
    JoinSnoc([], Data(BodyData, body));
    assert [] + [Data(BodyData, body)] == [Data(BodyData, body)];
  }

  lemma SinglesLast(kind: DataKind, body: Bytes)
    requires body != []
    ensures Singles(kind, body) == Singles(kind, body[..|body| - 1]) + [Data(kind, [body[|body| - 1]])]
  {
  }

  lemma IdentityNotEmpty(cfg: Settings, s: Parser)
    requires AtRest(cfg, s) && s.state == BodyIdentity
    ensures s.contentLength > 0
  {
  }

  lemma IdentityLastByte(cfg: Settings, s: Parser, ch: Byte)
    requires AtRest(cfg, s) && s.state == BodyIdentity && s.contentLength == 1
    ensures StepByte(cfg, s, ch) == MessageEnd(s.(contentLength := 0), [Data(BodyData, [ch]), MessageComplete], 1)
  {
    hide Once, Inv, CountedByte;
    var s2 := s.(contentLength := 0, state := MessageDone);
    LastOnce(cfg, s, ch);
    CountedAgain(cfg, s, ch, s2, MarkAndFlushThrough(BodyData));
    DoneByte(cfg, s2, ch);
    assert [Data(BodyData, [ch])] + [MessageComplete] == [Data(BodyData, [ch]), MessageComplete];
  }
}
