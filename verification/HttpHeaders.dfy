/** Header fields: what a header block says, and what the parser makes of it. */
module HttpHeaders {
  import opened HttpTypes
  import opened HttpMachine
  import opened HttpInvariant
  import opened HttpTrace
  import opened HttpRun
  import opened HttpBatch
  import opened HttpNumbers
  import opened HttpHeaderNames
  import opened HttpHeaderLists

  // ----- values

  /** The transfer codings end with chunked, and the parser hears it. */
  predicate EndsChunked(es: seq<Element>) {
    es != [] && Hears(false, es, |es| - 1) && Is(es[|es| - 1].word, "chunked")
  }

  /** `text`, read after the first letter of a value, leaves these flags and this length behind. */
  predicate Yields(h: Scan, text: Bytes, flags: Flags, length: nat) {
    && ReadsValue(h) && ValueAll(h, text).Good?
    && FinishHeader(ValueAll(h, text).scan.flags, ValueAll(h, text).scan.headerState) == flags
    && ValueAll(h, text).scan.contentLength == length
  }

  predicate HeaderChars(text: Bytes) { forall i :: 0 <= i < |text| ==> IsHeaderChar(text[i]) }

  lemma {:induction false} PlainRead(h: Scan, text: Bytes)
    requires h.headerState == General && HeaderChars(text)
    ensures ValueAll(h, text) == Good(h)
    decreases |text|
  {
    hide IsHeaderChar;
    var n := |text| - 1;
    if n >= 0 {
      PlainRead(h, text[..n]);
    }
  }

  lemma PlainYields(h: Scan, text: Bytes)
    requires h.headerState == General && HeaderChars(text)
    ensures Yields(h, text, h.flags, h.contentLength)
  {
    hide ValueAll, IsHeaderChar;
    PlainRead(h, text);
  }

  lemma {:induction false} LengthSpaces(h: Scan, n: nat)
    requires h.headerState == ContentLengthNum && h.contentLength < ULLONG_MAX
    ensures ValueAll(h, Spaces(n)) == Good(h.(headerState := if n == 0 then ContentLengthNum else ContentLengthWs))
    decreases n
  {
    if n > 0 {
      LengthSpaces(h, n - 1);
      assert Spaces(n)[..n - 1] == Spaces(n - 1);
    }
  }

  lemma LengthYields(h: Scan, digits: Bytes, n: nat)
    requires h.headerState == ContentLengthNum && h.contentLength <= MAX_DECIMAL && AllDigits(digits)
    requires Decimal(h.contentLength, digits) <= MAX_DECIMAL
    ensures Yields(h, digits + Spaces(n), h.flags, Decimal(h.contentLength, digits))
  {
    hide ValueAll, Decimal;
    ContentLengthValue(h, digits);
    ValueAppend(h, digits, Spaces(n));
    LengthSpaces(ValueAll(h, digits).scan, n);
  }

  lemma ConnectionYields(h: Scan, es: seq<Element>)
    requires IsList(es) && At(true, h, LexOf(true, es[0].word[..1]))
    ensures Yields(h, PrintList(es)[1..], Told(true, h.flags, es), h.contentLength)
  {
    hide ValueAll, LexOf, TokenChars, PrintList, Told, SetConnectionFlag, Blocks, Swallows, StateOf, ReadsValue;
    ListRead(true, h, es, |es|);
    assert es[..|es|] == es;
    LastTells(true, h.flags, es);
    var n := |es| - 1;
    EndFlags(true, ValueAll(h, PrintList(es)[1..]).scan, ElementLex(true, After(true, es[..n]), n == 0, es[n]));
  }

  lemma EndFlags(conn: bool, h: Scan, x: Lex)
    requires At(conn, h, x)
    ensures conn ==> FinishHeader(h.flags, h.headerState) ==
                     if x.Whole? then SetConnectionFlag(h.flags, StateOf(conn, x)) else h.flags
    ensures !conn ==> FinishHeader(h.flags, h.headerState) == if x.Whole? then h.flags.(chunked := true) else h.flags
  {
  }

  lemma ChunkedLex(es: seq<Element>)
    requires es != [] && IsToken(es[|es| - 1].word)
    ensures var n := |es| - 1;
            EndsChunked(es) <==> ElementLex(false, After(false, es[..n]), n == 0, es[n]).Whole?
  {
    hide After, TokenChars, Blocks, Lower;
    var n := |es| - 1;
    var e := es[n];
    assert Words(false)[0] == "chunked";
    if Like(e.word, "chunked") {
      LikeBegins(e.word, "chunked");
    }
    hide Like;
  }

  lemma CodingYields(h: Scan, es: seq<Element>)
    requires IsList(es) && At(false, h, LexOf(false, es[0].word[..1]))
    ensures Yields(h, PrintList(es)[1..], if EndsChunked(es) then h.flags.(chunked := true) else h.flags, h.contentLength)
  {
    hide ValueAll, LexOf, TokenChars, PrintList, EndsChunked, FinishHeader, Blocks, Swallows, StateOf, ReadsValue;
    ListRead(false, h, es, |es|);
    assert es[..|es|] == es;
    ChunkedLex(es);
    var n := |es| - 1;
    EndFlags(false, ValueAll(h, PrintList(es)[1..]).scan, ElementLex(false, After(false, es[..n]), n == 0, es[n]));
  }

  // ----- a line

  /** The states at the end of a line, when it is not known yet whether the next line continues it. */
  predicate AtLineEnd(s: Parser) {
    s.state == HeaderValueLws || (s.state == HeaderValueDiscardLws && s.headerState != ContentLength)
  }

  /** The parser once the next line turns out not to continue the value. */
  function Settled(s: Parser): Parser {
    s.(flags := FinishHeader(s.flags, s.headerState), state := HeaderFieldStart)
  }

  function Pending(s: Parser): seq<Event> {
    if s.state == HeaderValueDiscardLws then [Data(HeaderValueData, [])] else []
  }

  predicate IsBlank(ch: Byte) { ch == ' ' || ch == '\t' }

  lemma SettleOnce(cfg: Settings, s: Parser, ch: Byte)
    requires Inv(s) && AtLineEnd(s) && !IsBlank(ch)
    ensures Once(cfg, s, ch) ==
            Again(Settled(s), if s.state == HeaderValueDiscardLws then MarkAndFlush(HeaderValueData) else Quiet)
  {
    hide Inv, FinishHeader;
  }

  lemma SettledRests(cfg: Settings, s: Parser)
    requires AtRest(cfg, s) && AtLineEnd(s)
    ensures AtRest(cfg, Settled(s)) && Count(Settled(s)) == Settled(Count(s)) && AtLineEnd(Count(s))
  {
    hide FinishHeader, FieldState, ValueState;
  }

  lemma SettleByte(cfg: Settings, s: Parser, ch: Byte)
    requires AtRest(cfg, s) && AtLineEnd(s) && !IsBlank(ch)
    ensures AtRest(cfg, Settled(s))
    ensures StepByte(cfg, s, ch) == StepByte(cfg, Settled(s), ch).After(Pending(s), 0)
  {
    hide AtRest, Once, CountedByte, Inv, FinishHeader;
    SettledRests(cfg, s);
    CountKeepsInv(cfg, s);
    if Count(s).nread <= cfg.maxHeaderSize {
      SettleOnce(cfg, Count(s), ch);
      CountedAgain(cfg, Count(s), ch, Settled(Count(s)),
                   if s.state == HeaderValueDiscardLws then MarkAndFlush(HeaderValueData) else Quiet);
    }
  }

  /** What follows a complete line. */
  lemma SettleRun(cfg: Settings, s: Parser, rest: Bytes)
    requires AtRest(cfg, s) && AtLineEnd(s) && rest != [] && !IsBlank(rest[0])
    ensures AtRest(cfg, Settled(s))
    ensures Run(cfg, s, rest) == Run(cfg, Settled(s), rest).After(Pending(s), 0)
  {
    hide StepByte, Run, AtRest, Pending, Settled;
    SettleByte(cfg, s, rest[0]);
    assert rest == [rest[0]] + rest[1..];
    RunAppend(cfg, s, [rest[0]], rest[1..]);
    RunAppend(cfg, Settled(s), [rest[0]], rest[1..]);
    RunFirst(cfg, s, rest[0]);
    RunFirst(cfg, Settled(s), rest[0]);
    var r := StepByte(cfg, Settled(s), rest[0]);
    if r.Running? {
      AfterAfter(Run(cfg, r.parser, rest[1..]), Pending(s), 0, r.events, 1);
    }
  }

  lemma GapOnce(cfg: Settings, s: Parser, ch: Byte)
    requires Inv(s) && s.state == HeaderValueDiscardWs && IsBlank(ch)
    ensures Once(cfg, s, ch) == Consume(s, Quiet)
  {
    hide Inv, StartValue;
  }

  lemma GapByte(cfg: Settings, s: Parser, ch: Byte)
    requires AtRest(cfg, s) && s.state == HeaderValueDiscardWs && IsBlank(ch) && s.nread + 1 <= cfg.maxHeaderSize
    ensures StepByte(cfg, s, ch) == Running(s.(nread := s.nread + 1), [])
  {
    hide Inv, AtRest, Once, StepByte, CountedByte, IsBlank;
    CountKeepsInv(cfg, s);
    GapOnce(cfg, Count(s), ch);
    StepConsume(cfg, s, ch, Count(s), Quiet);
  }

  /** The blanks before a value. */
  lemma {:induction false} RunGap(cfg: Settings, s: Parser, gap: Bytes)
    requires AtRest(cfg, s) && s.state == HeaderValueDiscardWs && s.nread + |gap| <= cfg.maxHeaderSize
    requires forall i :: 0 <= i < |gap| ==> IsBlank(gap[i])
    ensures Run(cfg, s, gap) == Running(s.(nread := s.nread + |gap|), [])
    decreases |gap|
  {
    hide StepByte, AtRest, IsBlank;
    var n := |gap| - 1;
    if n >= 0 {
      RunGap(cfg, s, gap[..n]);
      GapByte(cfg, Run(cfg, s, gap[..n]).parser, gap[n]);
    }
  }

  lemma FirstValueOnce(cfg: Settings, s: Parser, ch: Byte)
    requires Inv(s) && s.state == HeaderValueDiscardWs && !IsBlank(ch) && ch != CR && ch != LF
    requires StartValue(s, ch).Consume?
    ensures Once(cfg, s, ch) == Consume(StartValue(s, ch).parser, Mark(HeaderValueData))
    ensures StartValue(s, ch).parser.state == HeaderValue && StartValue(s, ch).parser.nread == s.nread
    ensures StartValue(s, ch).parser == WithScan(s, ScanOf(StartValue(s, ch).parser)).(state := HeaderValue)
  {
    hide Inv;
  }

  lemma StartValueCounts(s: Parser, ch: Byte, n: nat)
    requires StartValue(s, ch).Consume?
    ensures StartValue(s.(nread := n), ch) == Consume(StartValue(s, ch).parser.(nread := n), StartValue(s, ch).effect)
  {
  }

  lemma FirstValueByte(cfg: Settings, s: Parser, ch: Byte)
    requires AtRest(cfg, s) && s.state == HeaderValueDiscardWs && !IsBlank(ch) && ch != CR && ch != LF
    requires StartValue(s, ch).Consume? && s.nread + 1 <= cfg.maxHeaderSize
    ensures StepByte(cfg, s, ch) ==
            Running(WithScan(s, ScanOf(StartValue(s, ch).parser)).(state := HeaderValue, nread := s.nread + 1),
                    [Data(HeaderValueData, [ch])])
  {
    hide Inv, AtRest, Once, StepByte, CountedByte, IsBlank, StartValue;
    CountKeepsInv(cfg, s);
    StartValueCounts(s, ch, s.nread + 1);
    FirstValueOnce(cfg, Count(s), ch);
    StepConsume(cfg, s, ch, StartValue(Count(s), ch).parser, Mark(HeaderValueData));
  }

  lemma ValueEndOnce(cfg: Settings, s: Parser)
    requires Inv(s) && s.state == HeaderValue
    ensures Once(cfg, s, CR) == Consume(s.(state := HeaderAlmostDone), Flush(HeaderValueData))
  {
    hide Inv, StartValue, ValueByte;
  }

  lemma ValueEndByte(cfg: Settings, s: Parser)
    requires AtRest(cfg, s) && s.state == HeaderValue && s.nread + 1 <= cfg.maxHeaderSize
    ensures StepByte(cfg, s, CR) ==
            Running(s.(state := HeaderAlmostDone, nread := s.nread + 1), [Data(HeaderValueData, [])])
  {
    hide Inv, AtRest, Once, StepByte, CountedByte;
    CountKeepsInv(cfg, s);
    ValueEndOnce(cfg, Count(s));
    StepConsume(cfg, s, CR, Count(s).(state := HeaderAlmostDone), Flush(HeaderValueData));
  }

  lemma LineFeedOnce(cfg: Settings, s: Parser)
    requires Inv(s) && s.state == HeaderAlmostDone
    ensures Once(cfg, s, LF) == Consume(s.(state := HeaderValueLws), Quiet)
  {
    hide Inv, FinishHeader;
  }

  lemma LineFeedByte(cfg: Settings, s: Parser)
    requires AtRest(cfg, s) && s.state == HeaderAlmostDone && s.nread + 1 <= cfg.maxHeaderSize
    ensures StepByte(cfg, s, LF) == Running(s.(state := HeaderValueLws, nread := s.nread + 1), [])
  {
    hide Inv, AtRest, Once, StepByte, CountedByte;
    CountKeepsInv(cfg, s);
    LineFeedOnce(cfg, Count(s));
    StepConsume(cfg, s, LF, Count(s).(state := HeaderValueLws), Quiet);
  }

  /** A value can be read from `s`, and leaves these flags and this length behind. */
  predicate Gives(s: Parser, text: Bytes, flags: Flags, length: nat) {
    && text != [] && !IsBlank(text[0]) && NoBreaks(text)
    && StartValue(s, text[0]).Consume?
    && Yields(ScanOf(StartValue(s, text[0]).parser), text[1..], flags, length)
  }

  /** The parser behind a line, when the next one does not continue it. */
  predicate LineRead(s: Parser, flags: Flags, length: nat, n: nat, s': Parser) {
    s' == s.(state := HeaderFieldStart, headerState := s'.headerState, index := s'.index, flags := flags,
             contentLength := length, nread := s.nread + n)
  }

  lemma GivesFacts(s: Parser, text: Bytes, flags: Flags, length: nat)
    requires Gives(s, text, flags, length)
    ensures text == [text[0]] + text[1..] && NoBreaks(text[1..])
    ensures !IsBlank(text[0]) && text[0] != CR && text[0] != LF && StartValue(s, text[0]).Consume?
    ensures Yields(ScanOf(StartValue(s, text[0]).parser), text[1..], flags, length)
  {
  }

  lemma ValueText(cfg: Settings, s: Parser, text: Bytes, flags: Flags, length: nat)
    requires AtRest(cfg, s) && s.state == HeaderValueDiscardWs && Gives(s, text, flags, length)
    requires s.nread + |text| <= cfg.maxHeaderSize
    ensures var r := Run(cfg, s, text);
            && r.Running? && r.events == Singles(HeaderValueData, text) && r.parser.state == HeaderValue
            && LineRead(s, flags, length, |text|, Settled(r.parser))
  {
    hide StepByte, AtRest, Singles, Run, StartValue, NoBreaks, ValueAll, FinishHeader, IsBlank, ReadsValue;
    GivesFacts(s, text, flags, length);
    hide Gives;
    var first, rest := text[0], text[1..];
    FirstValueByte(cfg, s, first);
    RunFirst(cfg, s, first);
    var s1 := Run(cfg, s, [first]).parser;
    RunAppend(cfg, s, [first], rest);
    RunValue(cfg, s1, rest);
    SinglesFirst(HeaderValueData, text);
  }

  /** A value that is not empty, and the end of its line. */
  lemma ValueLine(cfg: Settings, s: Parser, text: Bytes, flags: Flags, length: nat)
    requires AtRest(cfg, s) && s.state == HeaderValueDiscardWs && Gives(s, text, flags, length)
    requires s.nread + |text| + 2 <= cfg.maxHeaderSize
    ensures var r := Run(cfg, s, text + [CR, LF]);
            && r.Running? && r.events == Singles(HeaderValueData, text) + [Data(HeaderValueData, [])]
            && r.parser.state == HeaderValueLws && LineRead(s, flags, length, |text| + 2, Settled(r.parser))
  {
    hide StepByte, AtRest, Singles, Run, Gives, FinishHeader;
    ValueText(cfg, s, text, flags, length);
    RunSnoc(cfg, s, text, CR);
    var s1 := Run(cfg, s, text).parser;
    ValueEndByte(cfg, s1);
    RunSnoc(cfg, s, text + [CR], LF);
    LineFeedByte(cfg, Run(cfg, s, text + [CR]).parser);
    assert text + [CR] + [LF] == text + [CR, LF];
  }

  lemma EmptyOnce(cfg: Settings, s: Parser)
    requires Inv(s)
    ensures s.state == HeaderValueDiscardWs ==>
              Once(cfg, s, CR) == Consume(s.(state := HeaderValueDiscardWsAlmostDone), Quiet)
    ensures s.state == HeaderValueDiscardWsAlmostDone ==>
              Once(cfg, s, LF) == Consume(s.(state := HeaderValueDiscardLws), Quiet)
  {
    hide Inv, StartValue, FinishHeader, ValueByte;
  }

  lemma EmptyBytes(cfg: Settings, s: Parser)
    requires AtRest(cfg, s) && s.nread + 1 <= cfg.maxHeaderSize
    ensures s.state == HeaderValueDiscardWs ==>
              StepByte(cfg, s, CR) == Running(s.(state := HeaderValueDiscardWsAlmostDone, nread := s.nread + 1), [])
    ensures s.state == HeaderValueDiscardWsAlmostDone ==>
              StepByte(cfg, s, LF) == Running(s.(state := HeaderValueDiscardLws, nread := s.nread + 1), [])
  {
    hide Inv, AtRest, Once, StepByte, CountedByte;
    CountKeepsInv(cfg, s);
    EmptyOnce(cfg, Count(s));
    if s.state == HeaderValueDiscardWs {
      StepConsume(cfg, s, CR, Count(s).(state := HeaderValueDiscardWsAlmostDone), Quiet);
    } else if s.state == HeaderValueDiscardWsAlmostDone {
      StepConsume(cfg, s, LF, Count(s).(state := HeaderValueDiscardLws), Quiet);
    }
  }

  /** An empty value, and the end of its line. */
  lemma EmptyLine(cfg: Settings, s: Parser)
    requires AtRest(cfg, s) && s.state == HeaderValueDiscardWs && s.nread + 2 <= cfg.maxHeaderSize
    ensures Run(cfg, s, [CR, LF]) == Running(s.(state := HeaderValueDiscardLws, nread := s.nread + 2), [])
  {
    hide AtRest, StepByte, Run;
    EmptyBytes(cfg, s);
    RunFirst(cfg, s, CR);
    EmptyBytes(cfg, Run(cfg, s, [CR]).parser);
    RunSnoc(cfg, s, [CR], LF);
    assert [CR] + [LF] == [CR, LF];
  }

  // ----- what a header field says

  datatype HeaderKind = ConnectionKind | LengthKind | CodingKind | UpgradeKind | OtherKind

  /** The header fields that frame the message or decide about the connection. */
  function KindOf(name: Bytes): HeaderKind {
    if Names(name, "connection") || Names(name, "proxy-connection") then ConnectionKind
    else if Names(name, "content-length") then LengthKind
    else if Names(name, "transfer-encoding") then CodingKind
    else if Names(name, "upgrade") then UpgradeKind
    else OtherKind
  }

  datatype FieldValue = Text(text: Bytes) | Length(digits: Bytes, after: nat) | List(elements: seq<Element>)

  datatype Header = Header(name: Bytes, gap: Bytes, value: FieldValue)

  function PrintValue(v: FieldValue): Bytes {
    match v
    case Text(text) => text
    case Length(digits, n) => digits + Spaces(n)
    case List(es) => PrintList(es)
  }

  function PrintHeader(h: Header): Bytes { h.name + [':'] + h.gap + (PrintValue(h.value) + [CR, LF]) }

  /** A header field as section 3.2 of RFC 7230 writes it, without line folding. */
  predicate IsHeader(h: Header) {
    && h.name != [] && AllTokens(h.name) && h.name[0] != ' '
    && (forall i :: 0 <= i < |h.gap| ==> IsBlank(h.gap[i]))
    && match h.value
       case Text(text) =>
         if text == [] then !KindOf(h.name).LengthKind?
         else (KindOf(h.name).UpgradeKind? || KindOf(h.name).OtherKind?)
              && HeaderChars(text) && NoBreaks(text) && !IsBlank(text[0])
       case Length(digits, _) => KindOf(h.name).LengthKind? && digits != [] && AllDigits(digits)
       case List(es) => (KindOf(h.name).ConnectionKind? || KindOf(h.name).CodingKind?) && IsList(es)
  }

  /** What the header fields have said so far about the message. */
  datatype Block = Block(flags: Flags, length: nat)

  datatype Heeded = Heeded(block: Block) | Refused(errno: Errno)

  /** What one more header field says. */
  function Heed(b: Block, h: Header): Heeded
    requires IsHeader(h)
  {
    var flags := FlagsAfterName(b.flags, h.name);
    match h.value
    case Text(text) =>
      Heeded(b.(flags := if text != [] && KindOf(h.name).UpgradeKind? then flags.(upgrade := true) else flags))
    case Length(digits, _) =>
      if flags.contentLength then Refused(UnexpectedContentLength)
      else if Decimal(0, digits) > MAX_DECIMAL then Refused(InvalidContentLength)
      else Heeded(Block(flags.(contentLength := true), Decimal(0, digits)))
    case List(es) =>
      Heeded(b.(flags :=
        if KindOf(h.name).ConnectionKind? then Told(true, flags, es)
        else if EndsChunked(es) then flags.(chunked := true)
        else flags))
  }

  // ----- reading one

  lemma {:induction false} DecimalFirst(digits: Bytes)
    requires digits != [] && AllDigits(digits)
    ensures Decimal(0, digits) == Decimal(Digit(digits[0]), digits[1..])
    decreases |digits|
  {
    var n := |digits| - 1;
    if n > 0 {
      DecimalFirst(digits[..n]);
      assert digits[..n][1..] == digits[1..][..n - 1];
    }
  }

  lemma KindRecognised(name: Bytes, h: HeaderState)
    requires Recognised(name, h)
    ensures h == Connection <==> KindOf(name) == ConnectionKind
    ensures h == ContentLength <==> KindOf(name) == LengthKind
    ensures h == TransferEncoding <==> KindOf(name) == CodingKind
    ensures h == Upgrade <==> KindOf(name) == UpgradeKind
    ensures FieldState(h)
  {
    hide Names;
  }

  lemma TextGives(s: Parser, name: Bytes, text: Bytes)
    requires Recognised(name, s.headerState)
    requires (KindOf(name).UpgradeKind? || KindOf(name).OtherKind?)
    requires text != [] && HeaderChars(text) && NoBreaks(text) && !IsBlank(text[0])
    ensures Gives(s, text, if KindOf(name).UpgradeKind? then s.flags.(upgrade := true) else s.flags, s.contentLength)
  {
    hide IsHeaderChar, Yields, KindOf, Recognised;
    KindRecognised(name, s.headerState);
    PlainYields(ScanOf(StartValue(s, text[0]).parser), text[1..]);
  }

  lemma DigitChars(digits: Bytes, n: nat)
    requires digits != [] && AllDigits(digits)
    ensures var text := digits + Spaces(n);
            NoBreaks(text) && !IsBlank(text[0]) && text[0] == digits[0] && text[1..] == digits[1..] + Spaces(n)
  {
    assert forall i :: 0 <= i < |digits| ==> IsNum(digits[i]);
  }

  lemma LengthGives(s: Parser, digits: Bytes, n: nat)
    requires s.headerState == ContentLength && !s.flags.contentLength && digits != [] && AllDigits(digits)
    requires Decimal(0, digits) <= MAX_DECIMAL
    ensures Gives(s, digits + Spaces(n), s.flags.(contentLength := true), Decimal(0, digits))
  {
    hide Yields, Decimal, NoBreaks, Spaces;
    DecimalFirst(digits);
    DigitChars(digits, n);
    assert AllDigits(digits[1..]) && IsNum(digits[0]);
    LengthYields(ScanOf(StartValue(s, digits[0]).parser), digits[1..], n);
  }

  lemma ListChars(es: seq<Element>)
    requires IsList(es)
    ensures var text := PrintList(es);
            NoBreaks(text) && text != [] && !IsBlank(text[0]) && text[0] == es[0].word[0]
  {
    ListNoBreaks(es, |es|);
    assert es[..|es|] == es;
    TokenChar(es[0].word[0]);
    TokenNotTab(es[0].word[0]);
  }

  lemma TokenNotTab(ch: Byte)
    requires StrictToken(ch) != '\0'
    ensures ch != '\t'
  {
  }

  lemma ElementNoBreaks(e: Element)
    requires IsToken(e.word)
    ensures NoBreaks(PrintElement(e))
  {
    hide StrictToken;
    forall i | 0 <= i < |e.word|
      ensures e.word[i] != CR && e.word[i] != LF
    {
      TokenChar(e.word[i]);
    }
  }

  lemma {:induction false} ListNoBreaks(es: seq<Element>, n: nat)
    requires IsList(es) && 1 <= n <= |es|
    ensures var text := PrintList(es[..n]);
            NoBreaks(text) && text != [] && text[0] == es[0].word[0]
    decreases n
  {
    hide TokenChars;
    if n == 1 {
      assert es[..1][0] == es[0];
      FirstText(es);
      ElementNoBreaks(es[0]);
    } else {
      ListNoBreaks(es, n - 1);
      ElementNoBreaks(es[n - 1]);
      PrintOneMore(es, n - 1);
    }
  }

  lemma FirstLex(s: Parser, ch: Byte)
    ensures s.headerState == Connection ==>
              var r := StartValue(s, ch);
              r.Consume? && At(true, ScanOf(r.parser), LexOf(true, [ch])) && r.parser.flags == s.flags
              && r.parser.contentLength == s.contentLength
    ensures s.headerState == TransferEncoding ==>
              var r := StartValue(s, ch);
              r.Consume? && At(false, ScanOf(r.parser), LexOf(false, [ch])) && r.parser.flags == s.flags
              && r.parser.contentLength == s.contentLength
  {
    assert [ch][0] == ch;
  }

  lemma ListGives(s: Parser, name: Bytes, es: seq<Element>)
    requires Recognised(name, s.headerState) && IsList(es)
    requires KindOf(name).ConnectionKind? || KindOf(name).CodingKind?
    ensures Gives(s, PrintList(es),
                  if KindOf(name).ConnectionKind? then Told(true, s.flags, es)
                  else if EndsChunked(es) then s.flags.(chunked := true) else s.flags,
                  s.contentLength)
  {
    hide Yields, Recognised, KindOf, PrintList, NoBreaks, Told, EndsChunked, At, LexOf, StartValue, TokenChars, IsBlank;
    KindRecognised(name, s.headerState);
    ListChars(es);
    FirstLex(s, PrintList(es)[0]);
    assert es[0].word[..1] == [PrintList(es)[0]];
    var h := ScanOf(StartValue(s, PrintList(es)[0]).parser);
    if KindOf(name).ConnectionKind? { ConnectionYields(h, es); } else { CodingYields(h, es); }
  }

  /** A header field that is heeded: what it says is what the scan of its value gives. */
  lemma HeaderGives(s: Parser, h: Header, b: Block)
    requires IsHeader(h) && Recognised(h.name, s.headerState) && PrintValue(h.value) != []
    requires s.flags == FlagsAfterName(b.flags, h.name) && s.contentLength == b.length && Heed(b, h).Heeded?
    ensures Gives(s, PrintValue(h.value), Heed(b, h).block.flags, Heed(b, h).block.length)
  {
    hide Gives, Recognised, KindOf, AllTokens, FlagsAfterName, Told, EndsChunked, IsList, HeaderChars, NoBreaks, AllDigits;
    KindRecognised(h.name, s.headerState);
    match h.value
    case Text(text) => TextGives(s, h.name, text);
    case Length(digits, n) => LengthGives(s, digits, n);
    case List(es) => ListGives(s, h.name, es);
  }

  // ----- refusing one

  /** Value bytes of which one is refused. */
  lemma {:induction false} RunBadValue(cfg: Settings, s: Parser, bytes: Bytes)
    requires AtRest(cfg, s) && s.state == HeaderValue && NoBreaks(bytes) && ValueAll(ScanOf(s), bytes).Bad?
    requires s.nread + |bytes| <= cfg.maxHeaderSize
    ensures Run(cfg, s, bytes).Failed? && Run(cfg, s, bytes).errno == ValueAll(ScanOf(s), bytes).errno
    decreases |bytes|
  {
    hide StepByte, ValueByte, ValueState;
    var n := |bytes| - 1;
    if ValueAll(ScanOf(s), bytes[..n]).Bad? {
      RunBadValue(cfg, s, bytes[..n]);
    } else {
      RunValue(cfg, s, bytes[..n]);
      ValueStep(cfg, Run(cfg, s, bytes[..n]).parser, bytes[n]);
    }
  }

  lemma FirstRefusedOnce(cfg: Settings, s: Parser, ch: Byte)
    requires Inv(s) && s.state == HeaderValueDiscardWs
    requires s.headerState == ContentLength && s.flags.contentLength && IsNum(ch)
    ensures Once(cfg, s, ch) == Fail(UnexpectedContentLength)
  {
    hide Inv;
  }

  lemma FirstRefused(cfg: Settings, s: Parser, ch: Byte)
    requires AtRest(cfg, s) && s.state == HeaderValueDiscardWs && s.nread + 1 <= cfg.maxHeaderSize
    requires s.headerState == ContentLength && s.flags.contentLength && IsNum(ch)
    ensures StepByte(cfg, s, ch) == Failed(UnexpectedContentLength, 0)
  {
    hide Inv, AtRest, Once, StepByte, CountedByte;
    CountKeepsInv(cfg, s);
    FirstRefusedOnce(cfg, Count(s), ch);
    StepFail(cfg, s, ch, UnexpectedContentLength);
  }

  lemma TooLong(cfg: Settings, s: Parser, digits: Bytes)
    requires AtRest(cfg, s) && s.state == HeaderValueDiscardWs && s.nread + |digits| <= cfg.maxHeaderSize
    requires s.headerState == ContentLength && !s.flags.contentLength
    requires digits != [] && AllDigits(digits) && Decimal(0, digits) > MAX_DECIMAL
    ensures Run(cfg, s, digits).Failed? && Run(cfg, s, digits).errno == InvalidContentLength
  {
    hide StepByte, AtRest, Run, Decimal, IsBlank, ValueAll;
    var first, rest := digits[0], digits[1..];
    assert digits == [first] + rest && AllDigits(rest) && IsNum(first);
    DecimalFirst(digits);
    DigitChars(digits, 0);
    FirstValueByte(cfg, s, first);
    RunFirst(cfg, s, first);
    var s1 := Run(cfg, s, [first]).parser;
    RunAppend(cfg, s, [first], rest);
    ContentLengthValue(ScanOf(s1), rest);
    RestNoBreaks(digits);
    RunBadValue(cfg, s1, rest);
  }

  lemma RestNoBreaks(digits: Bytes)
    requires digits != [] && AllDigits(digits)
    ensures NoBreaks(digits[1..])
  {
  }

  /** A Content-Length that is not heeded: the second one, or one too large for the accumulator. */
  lemma LengthRefused(cfg: Settings, s: Parser, digits: Bytes, more: Bytes)
    requires AtRest(cfg, s) && s.state == HeaderValueDiscardWs && s.nread + |digits| <= cfg.maxHeaderSize
    requires s.headerState == ContentLength && digits != [] && AllDigits(digits)
    requires s.flags.contentLength || Decimal(0, digits) > MAX_DECIMAL
    ensures var r := Run(cfg, s, digits + more);
            r.Failed? && r.errno == if s.flags.contentLength then UnexpectedContentLength else InvalidContentLength
  {
    hide StepByte, AtRest, Run, Decimal;
    RunAppend(cfg, s, digits, more);
    if s.flags.contentLength {
      var first, rest := digits[0], digits[1..];
      assert digits == [first] + rest && IsNum(first);
      FirstRefused(cfg, s, first);
      RunFirst(cfg, s, first);
      RunAppend(cfg, s, [first], rest);
    } else {
      TooLong(cfg, s, digits);
    }
  }

  // ----- a whole line

  /** The callbacks of a header field, byte by byte. */
  function HeaderEvents(h: Header): seq<Event> {
    Singles(HeaderFieldData, h.name) + [Data(HeaderFieldData, [])]
    + (Singles(HeaderValueData, PrintValue(h.value)) + [Data(HeaderValueData, [])])
  }

  /** The value of a header field has been read, and its line has ended. */
  predicate ValueIsRead(cfg: Settings, s: Parser, v: Bytes, b: Block, r: Outcome) {
    && r.Running? && AtLineEnd(r.parser)
    && LineRead(s, b.flags, b.length, |v| + 2, Settled(r.parser))
    && r.events + Pending(r.parser) == Singles(HeaderValueData, v) + [Data(HeaderValueData, [])]
  }

  lemma EmptyRun(cfg: Settings, s: Parser, name: Bytes)
    requires AtRest(cfg, s) && s.state == HeaderValueDiscardWs && s.nread + 2 <= cfg.maxHeaderSize
    requires Recognised(name, s.headerState) && KindOf(name) != LengthKind
    ensures ValueIsRead(cfg, s, [], Block(s.flags, s.contentLength), Run(cfg, s, [] + [CR, LF]))
  {
    hide AtRest, StepByte, Run, Recognised, KindOf, Singles, FieldState;
    EmptyLine(cfg, s);
    assert [] + [CR, LF] == [CR, LF];
    KindRecognised(name, s.headerState);
    EmptyFinish(name, s.flags, s.headerState);
    hide FinishHeader;
    SinglesNone(HeaderValueData, []);
    assert [] + [Data(HeaderValueData, [])] == [Data(HeaderValueData, [])];
  }

  lemma GivenRun(cfg: Settings, s: Parser, v: Bytes, b: Block)
    requires AtRest(cfg, s) && s.state == HeaderValueDiscardWs && Gives(s, v, b.flags, b.length)
    requires s.nread + |v| + 2 <= cfg.maxHeaderSize
    ensures ValueIsRead(cfg, s, v, b, Run(cfg, s, v + [CR, LF]))
  {
    hide AtRest, StepByte, Run, Singles, Gives, LineRead, Settled;
    ValueLine(cfg, s, v, b.flags, b.length);
    var r := Run(cfg, s, v + [CR, LF]);
    assert r.events + [] == r.events;
  }

  /** A value and the end of its line, of a header field that is heeded. */
  lemma ValueRun(cfg: Settings, s: Parser, h: Header, b: Block)
    requires AtRest(cfg, s) && s.state == HeaderValueDiscardWs && IsHeader(h) && Recognised(h.name, s.headerState)
    requires s.flags == FlagsAfterName(b.flags, h.name) && s.contentLength == b.length && Heed(b, h).Heeded?
    requires s.nread + |PrintValue(h.value)| + 2 <= cfg.maxHeaderSize
    ensures var v := PrintValue(h.value);
            ValueIsRead(cfg, s, v, Heed(b, h).block, Run(cfg, s, v + [CR, LF]))
  {
    hide AtRest, StepByte, Run, Recognised, FlagsAfterName, Told, EndsChunked, AllTokens, IsList, KindOf, ValueIsRead;
    var v := PrintValue(h.value);
    if v == [] {
      EmptyValueIsText(h);
      EmptyRun(cfg, s, h.name);
    } else {
      HeaderGives(s, h, b);
      GivenRun(cfg, s, v, Heed(b, h).block);
    }
  }

  lemma SinglesNone(kind: DataKind, v: Bytes)
    requires v == []
    ensures Singles(kind, v) == []
  {
  }

  lemma EmptyValueIsText(h: Header)
    requires IsHeader(h) && PrintValue(h.value) == []
    ensures h.value == Text([])
  {
    if h.value.List? {
      ListChars(h.value.elements);
    }
  }

  lemma EmptyFinish(name: Bytes, flags: Flags, h: HeaderState)
    requires FieldState(h)
    ensures FinishHeader(flags, h) == flags
  {
  }

  /** A header field on a line of its own is reported as it was written, and the parser takes from it
      what it says, or refuses it. */
  lemma HeaderLine(cfg: Settings, s: Parser, h: Header)
    requires AtRest(cfg, s) && s.state == HeaderFieldStart && IsHeader(h)
    requires s.nread + |PrintHeader(h)| <= cfg.maxHeaderSize
    ensures var r := Run(cfg, s, PrintHeader(h));
            var said := Heed(Block(s.flags, s.contentLength), h);
            if said.Refused? then r.Failed? && r.errno == said.errno
            else
              && r.Running? && AtLineEnd(r.parser)
              && LineRead(s, said.block.flags, said.block.length, |PrintHeader(h)|, Settled(r.parser))
              && r.events + Pending(r.parser) == HeaderEvents(h)
  {
    hide AtRest, StepByte, Run, Singles, Recognised, FlagsAfterName, Told, EndsChunked, AllTokens, KindOf, IsBlank, Pending,
      AtLineEnd, Settled, FinishHeader, Heed, PrintValue;
    var b := Block(s.flags, s.contentLength);
    var v := PrintValue(h.value);
    HeaderName(cfg, s, h.name);
    var r1 := Run(cfg, s, h.name + [':']);
    var s1 := r1.parser;
    RunAppend(cfg, s, h.name + [':'], h.gap);
    RunGap(cfg, s1, h.gap);
    var s2 := s1.(nread := s1.nread + |h.gap|);
    RunAppend(cfg, s, h.name + [':'] + h.gap, v + [CR, LF]);
    if Heed(b, h).Heeded? {
      ValueRun(cfg, s2, h, b);
      EventsRegroup(r1.events, Run(cfg, s2, v + [CR, LF]), h);
    } else {
      ValueRefused(cfg, s2, h, b);
    }
  }

  lemma EventsRegroup(name: seq<Event>, r: Outcome, h: Header)
    requires r.Running? && name == Singles(HeaderFieldData, h.name) + [Data(HeaderFieldData, [])]
    requires r.events + Pending(r.parser) == Singles(HeaderValueData, PrintValue(h.value)) + [Data(HeaderValueData, [])]
    ensures name + [] + r.events + Pending(r.parser) == HeaderEvents(h)
  {
    hide Singles, PrintValue, Pending;
    assert name + [] == name;
    assert name + r.events + Pending(r.parser) == name + (r.events + Pending(r.parser));
  }

  lemma ValueRefused(cfg: Settings, s: Parser, h: Header, b: Block)
    requires AtRest(cfg, s) && s.state == HeaderValueDiscardWs && IsHeader(h) && Recognised(h.name, s.headerState)
    requires s.flags == FlagsAfterName(b.flags, h.name) && s.contentLength == b.length && Heed(b, h).Refused?
    requires s.nread + |PrintValue(h.value)| + 2 <= cfg.maxHeaderSize
    ensures var r := Run(cfg, s, PrintValue(h.value) + [CR, LF]);
            r.Failed? && r.errno == Heed(b, h).errno
  {
    hide AtRest, StepByte, Run, Recognised, FlagsAfterName, Told, EndsChunked, AllTokens, IsList, KindOf, AllDigits, Decimal;
    KindRecognised(h.name, s.headerState);
    LengthRefused(cfg, s, h.value.digits, Spaces(h.value.after) + [CR, LF]);
    assert h.value.digits + (Spaces(h.value.after) + [CR, LF]) == PrintValue(h.value) + [CR, LF];
  }

  // ----- header blocks

  function PrintHeaders(hs: seq<Header>): Bytes {
    if hs == [] then [] else PrintHeader(hs[0]) + PrintHeaders(hs[1..])
  }

  /** What a header block says: the first field that is refused decides. */
  function HeedAll(b: Block, hs: seq<Header>): Heeded
    requires forall i :: 0 <= i < |hs| ==> IsHeader(hs[i])
    decreases |hs|
  {
    if hs == [] then Heeded(b)
    else match Heed(b, hs[0])
      case Refused(e) => Refused(e)
      case Heeded(b') => HeedAll(b', hs[1..])
  }

  function BlockEvents(hs: seq<Header>): seq<Event> {
    if hs == [] then [] else HeaderEvents(hs[0]) + BlockEvents(hs[1..])
  }

  lemma HeaderStarts(h: Header, rest: Bytes)
    requires IsHeader(h)
    ensures PrintHeader(h) + rest != [] && !IsBlank((PrintHeader(h) + rest)[0])
  {
    hide KindOf;
    assert (PrintHeader(h) + rest)[0] == h.name[0];
    assert Token(h.name[0]) != '\0';
  }

  /** Running on behind a complete line. */
  lemma LineThen(cfg: Settings, s: Parser, h: Header, rest: Bytes) returns (s': Parser)
    requires AtRest(cfg, s) && s.state == HeaderFieldStart && IsHeader(h)
    requires s.nread + |PrintHeader(h)| <= cfg.maxHeaderSize && rest != [] && !IsBlank(rest[0])
    requires Heed(Block(s.flags, s.contentLength), h).Heeded?
    ensures var b := Heed(Block(s.flags, s.contentLength), h).block;
            && AtRest(cfg, s') && LineRead(s, b.flags, b.length, |PrintHeader(h)|, s')
            && Run(cfg, s, PrintHeader(h) + rest) == Run(cfg, s', rest).After(HeaderEvents(h), |PrintHeader(h)|)
  {
    hide AtRest, Run, IsHeader, Heed, PrintHeader, HeaderEvents, AtLineEnd, Settled, Pending, IsBlank;
    HeaderLine(cfg, s, h);
    var r := Run(cfg, s, PrintHeader(h));
    RunAppend(cfg, s, PrintHeader(h), rest);
    SettleRun(cfg, r.parser, rest);
    s' := Settled(r.parser);
    AfterAfter(Run(cfg, s', rest), r.events, |PrintHeader(h)|, Pending(r.parser), 0);
  }

  /** A header block: every field is reported, and the parser goes on behind it exactly as the block says,
      or stops with the error of the first field it refuses. */
  lemma {:induction false} HeaderBlock(cfg: Settings, s: Parser, hs: seq<Header>, rest: Bytes) returns (s': Parser)
    requires AtRest(cfg, s) && s.state == HeaderFieldStart
    requires forall i :: 0 <= i < |hs| ==> IsHeader(hs[i])
    requires s.nread + |PrintHeaders(hs)| <= cfg.maxHeaderSize && rest != [] && !IsBlank(rest[0])
    ensures var r := Run(cfg, s, PrintHeaders(hs) + rest);
            var said := HeedAll(Block(s.flags, s.contentLength), hs);
            if said.Refused? then r.Failed? && r.errno == said.errno
            else
              && AtRest(cfg, s') && LineRead(s, said.block.flags, said.block.length, |PrintHeaders(hs)|, s')
              && r == Run(cfg, s', rest).After(BlockEvents(hs), |PrintHeaders(hs)|)
    decreases |hs|
  {
    hide AtRest, Run, IsHeader, Heed, PrintHeader, HeaderEvents, IsBlank;
    if hs == [] {
      s' := s;
      assert [] + rest == rest;
      AfterNothing(Run(cfg, s, rest));
    } else {
      var h, more := hs[0], PrintHeaders(hs[1..]) + rest;
      assert PrintHeaders(hs) + rest == PrintHeader(h) + more;
      assert IsHeader(h);
      assert more != [] && !IsBlank(more[0]) by {
        if hs[1..] == [] {
          assert more == rest;
        } else {
          HeaderStarts(hs[1], PrintHeaders(hs[1..][1..]) + rest);
          assert more == PrintHeader(hs[1]) + (PrintHeaders(hs[1..][1..]) + rest);
        }
      }
      if Heed(Block(s.flags, s.contentLength), h).Heeded? {
        var s1 := LineThen(cfg, s, h, more);
        s' := HeaderBlock(cfg, s1, hs[1..], rest);
        if HeedAll(Block(s.flags, s.contentLength), hs).Heeded? {
          AfterAfter(Run(cfg, s', rest), HeaderEvents(h), |PrintHeader(h)|, BlockEvents(hs[1..]), |PrintHeaders(hs[1..])|);
        }
      } else {
        s' := s;
        HeaderLine(cfg, s, h);
        RunAppend(cfg, s, PrintHeader(h), more);
      }
    }
  }

  lemma AfterNothing(r: Outcome)
    ensures r.After([], 0) == r
  {
    assert !r.Failed? ==> [] + r.events == r.events;
  }
}
