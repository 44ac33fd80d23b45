/** Whole messages: a request or a response printed as RFC 7230 writes it, against what the parser reports. */
module HttpMessages {
  import opened HttpTypes
  import opened HttpMachine
  import opened HttpInvariant
  import opened HttpTrace
  import opened HttpRun
  import opened HttpBatch
  import opened HttpNumbers
  import opened HttpMethods
  import opened HttpHeaders
  import opened HttpFraming
  import HttpHeaderNames
  import HttpUrl

  // ----- the request target

  /** The states in which a target may not end. */
  predicate CutShort(state: State) {
    state.Dead? || state.ReqSchema? || state.ReqSchemaSlash? || state.ReqSchemaSlashSlash? || state.ReqServerStart?
  }

  /** A request target the URL automaton accepts. */
  predicate IsTarget(verb: nat, target: Bytes) {
    target != [] && !CutShort(HttpUrl.UrlState(HttpUrl.Begin(verb == CONNECT), target))
  }

  predicate NoGaps(target: Bytes) { forall i :: 0 <= i < |target| ==> target[i] != ' ' && target[i] != CR && target[i] != LF }

  lemma FirstTargetOnce(cfg: Settings, s: Parser, ch: Byte)
    requires Inv(s) && s.state == ReqSpacesBeforeUrl && ch != ' '
    ensures Once(cfg, s, ch) == UrlByte(s, HttpUrl.Begin(s.verb == CONNECT), ch, Mark(UrlData))
  {
    hide Inv, UrlByte;
  }

  lemma TargetOnce(cfg: Settings, s: Parser, ch: Byte)
    requires Inv(s) && InUrl(s.state) && ch != ' ' && ch != CR && ch != LF
    ensures Once(cfg, s, ch) == UrlByte(s, s.state, ch, Quiet)
  {
    hide Inv, UrlByte;
  }

  lemma TargetEndOnce(cfg: Settings, s: Parser)
    requires Inv(s) && InUrl(s.state)
    ensures Once(cfg, s, ' ') ==
            if CutShort(s.state) then Fail(InvalidUrl) else Consume(s.(state := ReqHttpStart), Flush(UrlData))
  {
    hide Inv;
  }

  /** What one byte of a target does: the parser is in the state of the URL automaton. */
  predicate TargetStep(cfg: Settings, s: Parser, from: State, ch: Byte)
    requires AtRest(cfg, s)
  {
    var next := ParseUrlChar(from, ch);
    StepByte(cfg, s, ch) ==
      if next == Dead then Failed(InvalidUrl, 0)
      else Running(s.(state := next, nread := s.nread + 1), [Data(UrlData, [ch])])
  }

  lemma FirstTargetByte(cfg: Settings, s: Parser, ch: Byte)
    requires AtRest(cfg, s) && s.nread + 1 <= cfg.maxHeaderSize && s.state == ReqSpacesBeforeUrl && ch != ' '
    ensures TargetStep(cfg, s, HttpUrl.Begin(s.verb == CONNECT), ch)
  {
    hide Inv, AtRest, Once, StepByte, CountedByte, ParseUrlChar;
    CountKeepsInv(cfg, s);
    var next := ParseUrlChar(HttpUrl.Begin(s.verb == CONNECT), ch);
    FirstTargetOnce(cfg, Count(s), ch);
    if next == Dead {
      StepFail(cfg, s, ch, InvalidUrl);
    } else {
      StepConsume(cfg, s, ch, Count(s).(state := next), Mark(UrlData));
    }
  }

  lemma NextTargetByte(cfg: Settings, s: Parser, ch: Byte)
    requires AtRest(cfg, s) && s.nread + 1 <= cfg.maxHeaderSize && InUrl(s.state) && ch != ' ' && ch != CR && ch != LF
    ensures TargetStep(cfg, s, s.state, ch)
  {
    hide Inv, AtRest, Once, StepByte, CountedByte, ParseUrlChar, InUrl, OpenAt;
    CountKeepsInv(cfg, s);
    UrlCounts(s.state);
    OpenInUrl(s.state);
    var next := ParseUrlChar(s.state, ch);
    TargetOnce(cfg, Count(s), ch);
    if next == Dead {
      StepFail(cfg, s, ch, InvalidUrl);
    } else {
      StepConsume(cfg, s, ch, Count(s).(state := next), Quiet);
    }
  }

  lemma {:induction false} RunTarget(cfg: Settings, s: Parser, target: Bytes)
    requires AtRest(cfg, s) && s.state == ReqSpacesBeforeUrl && NoGaps(target) && target != []
    requires s.nread + |target| <= cfg.maxHeaderSize
    ensures var state := HttpUrl.UrlState(HttpUrl.Begin(s.verb == CONNECT), target);
            var r := Run(cfg, s, target);
            if state == Dead then r.Failed? && r.errno == InvalidUrl
            else InUrl(state) && r == Running(s.(state := state, nread := s.nread + |target|), Singles(UrlData, target))
    decreases |target|
  {
    hide StepByte, AtRest, ParseUrlChar, InUrl;
    var n := |target| - 1;
    var start := HttpUrl.Begin(s.verb == CONNECT);
    assert target == target[..n] + [target[n]];
    RunSnoc(cfg, s, target[..n], target[n]);
    if n == 0 {
      RunNil(cfg, s);
      assert target[..0] == [];
      FirstTargetByte(cfg, s, target[0]);
    } else {
      RunTarget(cfg, s, target[..n]);
      var state := HttpUrl.UrlState(start, target[..n]);
      if state == Dead {
        DeadStays(target[n]);
      } else {
        NextTargetByte(cfg, Run(cfg, s, target[..n]).parser, target[n]);
      }
    }
  }

  lemma DeadStays(ch: Byte)
    ensures ParseUrlChar(Dead, ch) == Dead
  {
  }

  /** A target and the space behind it: taken exactly when the URL automaton accepts the target and
      does not stop inside a schema or before a host. */
  lemma Target(cfg: Settings, s: Parser, target: Bytes)
    requires AtRest(cfg, s) && s.state == ReqSpacesBeforeUrl && NoGaps(target) && target != []
    requires s.nread + |target| + 1 <= cfg.maxHeaderSize
    ensures var r := Run(cfg, s, target + [' ']);
            if IsTarget(s.verb, target) then
              r == Running(s.(state := ReqHttpStart, nread := s.nread + |target| + 1),
                           Singles(UrlData, target) + [Data(UrlData, [])])
            else r.Failed? && r.errno == InvalidUrl
  {
    hide StepByte, AtRest, Inv, Run, Once, CountedByte, Singles, NoGaps, InUrl, OpenAt, HttpUrl.UrlState;
    RunTarget(cfg, s, target);
    RunSnoc(cfg, s, target, ' ');
    var state := HttpUrl.UrlState(HttpUrl.Begin(s.verb == CONNECT), target);
    if state != Dead {
      var s1 := Run(cfg, s, target).parser;
      UrlCounts(state);
      OpenInUrl(state);
      CountKeepsInv(cfg, s1);
      TargetEndOnce(cfg, Count(s1));
      if CutShort(state) {
        StepFail(cfg, s1, ' ', InvalidUrl);
      } else {
        StepConsume(cfg, s1, ' ', Count(s1).(state := ReqHttpStart), Flush(UrlData));
      }
    }
  }

  lemma UrlCounts(state: State)
    requires InUrl(state)
    ensures state.ParsingHeader()
  {
  }

  lemma OpenInUrl(state: State)
    requires InUrl(state)
    ensures OpenAt(state).Some? && OpenAt(state).value == UrlData
  {
  }

  // ----- the version

  /** A version and the end of the line. */
  function PrintVersion(major: Byte, minor: Byte): (text: Bytes)
    ensures |text| == 10
  {
    ['H', 'T', 'T', 'P', '/', major, '.', minor, CR, LF]
  }

  /** The state after k characters of a version. */
  function VersionState(k: nat): State {
    match k
    case 0 => ReqHttpStart case 1 => ReqHttpH case 2 => ReqHttpHT case 3 => ReqHttpHTT case 4 => ReqHttpHTTP
    case 5 => ReqHttpMajor case 6 => ReqHttpDot case 7 => ReqHttpMinor case 8 => ReqHttpEnd
    case 9 => ReqLineAlmostDone case _ => HeaderFieldStart
  }

  function VersionRead(s: Parser, major: Byte, minor: Byte, k: nat): (s': Parser)
    requires IsNum(major) && IsNum(minor)
    ensures s'.nread == s.nread
  {
    s.(state := VersionState(k), httpMajor := if k > 5 then Digit(major) else s.httpMajor,
       httpMinor := if k > 7 then Digit(minor) else s.httpMinor)
  }

  lemma VersionOnce(cfg: Settings, s: Parser, major: Byte, minor: Byte, k: nat)
    requires k < 10 && IsNum(major) && IsNum(minor) && Inv(VersionRead(s, major, minor, k))
    ensures Once(cfg, VersionRead(s, major, minor, k), PrintVersion(major, minor)[k]) ==
            Consume(VersionRead(s, major, minor, k + 1), Quiet)
  {
    hide Inv;
  }

  lemma VersionByte(cfg: Settings, s: Parser, major: Byte, minor: Byte, k: nat)
    requires k < 10 && IsNum(major) && IsNum(minor)
    requires var s1 := VersionRead(s, major, minor, k); AtRest(cfg, s1) && s1.nread + 1 <= cfg.maxHeaderSize
    ensures StepByte(cfg, VersionRead(s, major, minor, k), PrintVersion(major, minor)[k]) ==
            Running(VersionRead(s.(nread := s.nread + 1), major, minor, k + 1), [])
  {
    hide Inv, AtRest, Once, StepByte, CountedByte, PrintVersion, IsNum, Digit;
    var s1 := VersionRead(s, major, minor, k);
    CountKeepsInv(cfg, s1);
    var s2 := VersionRead(s.(nread := s.nread + 1), major, minor, k + 1);
    VersionOnce(cfg, s.(nread := s.nread + 1), major, minor, k);
    StepConsume(cfg, s1, PrintVersion(major, minor)[k], s2, Quiet);
  }

  lemma NoVersion(s: Parser, major: Byte, minor: Byte)
    requires IsNum(major) && IsNum(minor) && s.state == ReqHttpStart
    ensures VersionRead(s, major, minor, 0) == s
  {
  }

  lemma {:induction false} RunVersion(cfg: Settings, s: Parser, major: Byte, minor: Byte, k: nat)
    requires AtRest(cfg, s) && s.state == ReqHttpStart && IsNum(major) && IsNum(minor) && k <= 10
    requires s.nread + k <= cfg.maxHeaderSize
    ensures Run(cfg, s, PrintVersion(major, minor)[..k]) ==
            Running(VersionRead(s.(nread := s.nread + k), major, minor, k), [])
    decreases k
  {
    hide AtRest, StepByte, Run, IsNum, Digit, VersionRead, PrintVersion;
    var text := PrintVersion(major, minor);
    if k == 0 {
      NoVersion(s, major, minor);
      RunNil(cfg, s);
      assert text[..0] == [];
    } else {
      RunVersion(cfg, s, major, minor, k - 1);
      assert text[..k] == text[..k - 1] + [text[k - 1]];
      RunSnoc(cfg, s, text[..k - 1], text[k - 1]);
      VersionByte(cfg, s.(nread := s.nread + k - 1), major, minor, k - 1);
    }
  }

  /** A request line. */
  datatype RequestLine = RequestLine(verb: nat, target: Bytes, major: Byte, minor: Byte)

  predicate IsRequestLine(l: RequestLine) {
    l.verb < METHODS && NoGaps(l.target) && IsTarget(l.verb, l.target) && IsNum(l.major) && IsNum(l.minor)
  }

  function PrintRequestLine(l: RequestLine): Bytes
    requires l.verb < METHODS
  {
    Letters(l.verb, |MethodName(l.verb)|) + [' '] + (l.target + [' ']) + PrintVersion(l.major, l.minor)
  }

  /** The parser behind a request line. */
  function RequestLineRead(s: Parser, l: RequestLine): Parser
    requires IsRequestLine(l)
  {
    StartMessage(s).(verb := l.verb, index := |MethodName(l.verb)| + 1, state := HeaderFieldStart,
                     httpMajor := Digit(l.major), httpMinor := Digit(l.minor), nread := s.nread + |PrintRequestLine(l)|)
  }

  function RequestLineEvents(l: RequestLine): seq<Event> {
    [MessageBegin] + (Singles(UrlData, l.target) + [Data(UrlData, [])])
  }

  /** The method and the target of a request line. */
  lemma ReadMethodAndTarget(cfg: Settings, s: Parser, l: RequestLine)
    requires AtRest(cfg, s) && s.state == StartReq && IsRequestLine(l)
    requires s.nread + |PrintRequestLine(l)| <= cfg.maxHeaderSize
    ensures var text := Letters(l.verb, |MethodName(l.verb)|) + [' '] + (l.target + [' ']);
            Run(cfg, s, text) ==
              Running(StartMessage(s).(verb := l.verb, index := |MethodName(l.verb)| + 1, state := ReqHttpStart,
                                       nread := s.nread + |text|), RequestLineEvents(l))
  {
    hide AtRest, Inv, StepByte, Run, MethodName, IsTarget, NoGaps, IsNum, Singles, PrintVersion, Letters, StartMessage;
    var n := |MethodName(l.verb)|;
    var verb, url := Letters(l.verb, n) + [' '], l.target + [' '];
    RunMethod(cfg, s, l.verb);
    TargetNotEmpty(l);
    Target(cfg, Run(cfg, s, verb).parser, l.target);
    RunAppend(cfg, s, verb, url);
  }

  /** A request line is read as it was printed. */
  lemma ReadRequestLine(cfg: Settings, s: Parser, l: RequestLine)
    requires AtRest(cfg, s) && s.state == StartReq && IsRequestLine(l)
    requires s.nread + |PrintRequestLine(l)| <= cfg.maxHeaderSize
    ensures Run(cfg, s, PrintRequestLine(l)) == Running(RequestLineRead(s, l), RequestLineEvents(l))
  {
    hide AtRest, StepByte, Run, MethodName, IsTarget, NoGaps, IsNum, Digit, RequestLineEvents, Letters;
    var before, version := Letters(l.verb, |MethodName(l.verb)|) + [' '] + (l.target + [' ']), PrintVersion(l.major, l.minor);
    ReadMethodAndTarget(cfg, s, l);
    RunAppend(cfg, s, before, version);
    RunVersion(cfg, Run(cfg, s, before).parser, l.major, l.minor, 10);
    assert version[..10] == version;
    assert RequestLineEvents(l) + [] == RequestLineEvents(l);
  }

  lemma TargetNotEmpty(l: RequestLine)
    requires IsRequestLine(l)
    ensures l.target != []
  {
  }

  // ----- the status line

  /** A status line: the code is three digits, the reason any text without a line break. */
  datatype StatusLineText = StatusLineText(major: Byte, minor: Byte, code: Bytes, reason: Bytes)

  predicate IsStatusLine(l: StatusLineText) {
    IsNum(l.major) && IsNum(l.minor) && |l.code| == 3 && AllDigits(l.code) && NoBreaks(l.reason)
  }

  /** The version and the code of a status line, with the space behind each. */
  function PrintCode(l: StatusLineText): (text: Bytes)
    requires |l.code| == 3
    ensures |text| == 13
  {
    ['H', 'T', 'T', 'P', '/', l.major, '.', l.minor, ' ', l.code[0], l.code[1], l.code[2], ' ']
  }

  function PrintStatusLine(l: StatusLineText): Bytes
    requires |l.code| == 3
  {
    PrintCode(l) + l.reason + [CR, LF]
  }

  function CodeState(k: nat): State {
    match k
    case 0 => StartRes case 1 => ResH case 2 => ResHT case 3 => ResHTT case 4 => ResHTTP
    case 5 => ResHttpMajor case 6 => ResHttpDot case 7 => ResHttpMinor case 8 => ResHttpEnd
    case 9 => ResFirstStatusCode case 10 => ResStatusCode case 11 => ResStatusCode case 12 => ResStatusCode
    case _ => ResStatusStart
  }

  /** The value of the first n digits of a status code. */
  function CodeValue(code: Bytes, n: nat): nat
    requires n <= |code| && AllDigits(code)
  {
    if n == 0 then 0 else CodeValue(code, n - 1) * 10 + Digit(code[n - 1])
  }

  /** The parser after k characters of the version and the code. */
  function CodeRead(s: Parser, l: StatusLineText, k: nat): (s': Parser)
    requires IsStatusLine(l)
    ensures s'.nread == s.nread
  {
    (if k > 0 then StartMessage(s) else s).(
      state := CodeState(k), httpMajor := if k > 5 then Digit(l.major) else s.httpMajor,
      httpMinor := if k > 7 then Digit(l.minor) else s.httpMinor,
      statusCode := if k > 9 then CodeValue(l.code, if k < 12 then k - 9 else 3) else s.statusCode)
  }

  lemma CodeBounds(code: Bytes)
    requires |code| == 3 && AllDigits(code)
    ensures CodeValue(code, 1) == Digit(code[0]) <= 9
    ensures CodeValue(code, 2) == CodeValue(code, 1) * 10 + Digit(code[1]) <= 99
    ensures CodeValue(code, 3) == CodeValue(code, 2) * 10 + Digit(code[2]) <= 999
    ensures IsNum(code[0]) && IsNum(code[1]) && IsNum(code[2])
  {
    assert CodeValue(code, 0) == 0;
  }

  lemma CodeOnce(cfg: Settings, s: Parser, l: StatusLineText, k: nat)
    requires k < 13 && IsStatusLine(l) && Inv(CodeRead(s, l, k))
    ensures Once(cfg, CodeRead(s, l, k), PrintCode(l)[k]) ==
            Consume(CodeRead(s, l, k + 1), if k == 0 then Notify(MessageBegin) else Quiet)
  {
    hide Inv, CodeValue, AllDigits, NoBreaks;
    CodeBounds(l.code);
  }

  lemma CodeByte(cfg: Settings, s: Parser, l: StatusLineText, k: nat)
    requires k < 13 && IsStatusLine(l)
    requires var s1 := CodeRead(s, l, k); AtRest(cfg, s1) && s1.nread + 1 <= cfg.maxHeaderSize
    ensures StepByte(cfg, CodeRead(s, l, k), PrintCode(l)[k]) ==
            Running(CodeRead(s.(nread := s.nread + 1), l, k + 1), if k == 0 then [MessageBegin] else [])
  {
    hide Inv, AtRest, Once, StepByte, CountedByte, CodeValue, Digit;
    var s1 := CodeRead(s, l, k);
    CountKeepsInv(cfg, s1);
    var s2 := CodeRead(s.(nread := s.nread + 1), l, k + 1);
    CodeOnce(cfg, s.(nread := s.nread + 1), l, k);
    hide PrintCode, IsStatusLine;
    StepConsume(cfg, s1, PrintCode(l)[k], s2, if k == 0 then Notify(MessageBegin) else Quiet);
  }

  lemma NoCode(s: Parser, l: StatusLineText)
    requires IsStatusLine(l) && s.state == StartRes
    ensures CodeRead(s, l, 0) == s
  {
  }

  lemma {:induction false} RunCode(cfg: Settings, s: Parser, l: StatusLineText, k: nat)
    requires AtRest(cfg, s) && s.state == StartRes && IsStatusLine(l) && k <= 13
    requires s.nread + k <= cfg.maxHeaderSize
    ensures Run(cfg, s, PrintCode(l)[..k]) ==
            Running(CodeRead(s.(nread := s.nread + k), l, k), if k > 0 then [MessageBegin] else [])
    decreases k
  {
    hide AtRest, StepByte, AllDigits, NoBreaks, CodeRead, PrintCode, IsStatusLine, Run;
    CodeLength(l);
    var text := PrintCode(l);
    if k == 0 {
      NoCode(s, l);
      RunNil(cfg, s);
      assert text[..0] == [];
    } else {
      RunCode(cfg, s, l, k - 1);
      assert text[..k] == text[..k - 1] + [text[k - 1]];
      RunSnoc(cfg, s, text[..k - 1], text[k - 1]);
      CodeByte(cfg, s.(nread := s.nread + k - 1), l, k - 1);
    }
  }

  lemma CodeLength(l: StatusLineText)
    requires IsStatusLine(l)
    ensures |l.code| == 3
  {
  }

  lemma ReasonOnce(cfg: Settings, s: Parser, ch: Byte)
    requires Inv(s) && ch != CR && ch != LF
    ensures s.state == ResStatusStart ==> Once(cfg, s, ch) == Consume(s.(state := ResStatus, index := 0), Mark(StatusData))
    ensures s.state == ResStatus ==> Once(cfg, s, ch) == Consume(s, Quiet)
  {
    hide Inv;
  }

  lemma ReasonByte(cfg: Settings, s: Parser, ch: Byte)
    requires AtRest(cfg, s) && s.nread + 1 <= cfg.maxHeaderSize && ch != CR && ch != LF
    requires s.state == ResStatusStart || (s.state == ResStatus && s.index == 0)
    ensures StepByte(cfg, s, ch) ==
            Running(s.(state := ResStatus, index := 0, nread := s.nread + 1), [Data(StatusData, [ch])])
  {
    hide Inv, AtRest, Once, StepByte, CountedByte;
    CountKeepsInv(cfg, s);
    ReasonOnce(cfg, Count(s), ch);
    var effect := if s.state == ResStatusStart then Mark(StatusData) else Quiet;
    StepConsume(cfg, s, ch, Count(s).(state := ResStatus, index := 0), effect);
  }

  lemma {:induction false} RunReason(cfg: Settings, s: Parser, reason: Bytes)
    requires AtRest(cfg, s) && s.state == ResStatusStart && NoBreaks(reason) && s.nread + |reason| <= cfg.maxHeaderSize
    ensures Run(cfg, s, reason) ==
            Running(if reason == [] then s else s.(state := ResStatus, index := 0, nread := s.nread + |reason|),
                    Singles(StatusData, reason))
    decreases |reason|
  {
    hide AtRest, StepByte;
    var n := |reason| - 1;
    if n >= 0 {
      RunReason(cfg, s, reason[..n]);
      ReasonByte(cfg, Run(cfg, s, reason[..n]).parser, reason[n]);
    }
  }

  lemma ReasonEndOnce(cfg: Settings, s: Parser)
    requires Inv(s)
    ensures s.state == ResStatusStart ==>
              Once(cfg, s, CR) == Again(s.(state := ResStatus, index := 0), Mark(StatusData))
    ensures s.state == ResStatus ==> Once(cfg, s, CR) == Consume(s.(state := ResLineAlmostDone), Flush(StatusData))
    ensures s.state == ResLineAlmostDone ==> Once(cfg, s, LF) == Consume(s.(state := HeaderFieldStart), Quiet)
  {
    hide Inv;
  }

  /** The end of a reason that is not empty. */
  lemma ReasonEndByte(cfg: Settings, s: Parser)
    requires AtRest(cfg, s) && s.nread + 1 <= cfg.maxHeaderSize && s.state == ResStatus
    ensures StepByte(cfg, s, CR) == Running(s.(state := ResLineAlmostDone, nread := s.nread + 1), [Data(StatusData, [])])
  {
    hide Inv, AtRest, Once, StepByte, CountedByte;
    CountKeepsInv(cfg, s);
    ReasonEndOnce(cfg, Count(s));
    StepConsume(cfg, s, CR, Count(s).(state := ResLineAlmostDone), Flush(StatusData));
  }

  /** ... and of an empty one. */
  lemma NoReasonByte(cfg: Settings, s: Parser)
    requires AtRest(cfg, s) && s.nread + 1 <= cfg.maxHeaderSize && s.state == ResStatusStart
    ensures StepByte(cfg, s, CR) ==
            Running(s.(state := ResLineAlmostDone, index := 0, nread := s.nread + 1), [Data(StatusData, [])])
  {
    hide Inv, AtRest, Once, CountedByte;
    CountKeepsInv(cfg, s);
    var s1 := Count(s);
    var s2 := s1.(state := ResStatus, index := 0);
    ReasonEndOnce(cfg, s1);
    CountedAgain(cfg, s1, CR, s2, Mark(StatusData));
    ReasonEndOnce(cfg, s2);
    CountedConsume(cfg, s2, CR, s2.(state := ResLineAlmostDone), Flush(StatusData));
    assert [] + [Data(StatusData, [])] == [Data(StatusData, [])];
  }

  lemma StatusLineFeed(cfg: Settings, s: Parser)
    requires AtRest(cfg, s) && s.nread + 1 <= cfg.maxHeaderSize && s.state == ResLineAlmostDone
    ensures StepByte(cfg, s, LF) == Running(s.(state := HeaderFieldStart, nread := s.nread + 1), [])
  {
    hide Inv, AtRest, Once, StepByte, CountedByte;
    CountKeepsInv(cfg, s);
    ReasonEndOnce(cfg, Count(s));
    StepConsume(cfg, s, LF, Count(s).(state := HeaderFieldStart), Quiet);
  }

  lemma ReasonEnd(cfg: Settings, s: Parser, reason: Bytes)
    requires AtRest(cfg, s) && s.state == ResStatusStart && NoBreaks(reason) && s.nread + |reason| + 1 <= cfg.maxHeaderSize
    ensures Run(cfg, s, reason + [CR]) ==
            Running(s.(state := ResLineAlmostDone, index := 0, nread := s.nread + |reason| + 1),
                    Singles(StatusData, reason) + [Data(StatusData, [])])
  {
    hide AtRest, StepByte, Run, Singles, NoBreaks;
    RunReason(cfg, s, reason);
    var s1 := Run(cfg, s, reason).parser;
    RunSnoc(cfg, s, reason, CR);
    if reason == [] { NoReasonByte(cfg, s1); } else { ReasonEndByte(cfg, s1); }
  }

  lemma ReasonLine(cfg: Settings, s: Parser, reason: Bytes)
    requires AtRest(cfg, s) && s.state == ResStatusStart && NoBreaks(reason) && s.nread + |reason| + 2 <= cfg.maxHeaderSize
    ensures Run(cfg, s, reason + [CR, LF]) ==
            Running(s.(state := HeaderFieldStart, index := 0, nread := s.nread + |reason| + 2),
                    Singles(StatusData, reason) + [Data(StatusData, [])])
  {
    hide AtRest, StepByte, Run, Singles, NoBreaks;
    ReasonEnd(cfg, s, reason);
    RunSnoc(cfg, s, reason + [CR], LF);
    StatusLineFeed(cfg, Run(cfg, s, reason + [CR]).parser);
    assert reason + [CR] + [LF] == reason + [CR, LF];
    var events := Singles(StatusData, reason) + [Data(StatusData, [])];
    assert events + [] == events;
  }

  /** The parser behind a status line. */
  function StatusLineRead(s: Parser, l: StatusLineText): Parser
    requires IsStatusLine(l)
  {
    StartMessage(s).(httpMajor := Digit(l.major), httpMinor := Digit(l.minor), statusCode := CodeValue(l.code, 3),
                     index := 0, state := HeaderFieldStart, nread := s.nread + |PrintStatusLine(l)|)
  }

  lemma AfterCode(s: Parser, l: StatusLineText)
    requires IsStatusLine(l)
    ensures CodeRead(s, l, 13).state == ResStatusStart && NoBreaks(l.reason)
    ensures StatusLineRead(s, l) ==
            CodeRead(s, l, 13).(index := 0, state := HeaderFieldStart, nread := s.nread + |PrintStatusLine(l)|)
    ensures PrintStatusLine(l) == PrintCode(l) + (l.reason + [CR, LF])
  {
    hide CodeValue, Digit, AllDigits, NoBreaks;
  }

  /** A status line is read as it was printed. */
  lemma ReadStatusLine(cfg: Settings, s: Parser, l: StatusLineText)
    requires AtRest(cfg, s) && s.state == StartRes && IsStatusLine(l)
    requires s.nread + |PrintStatusLine(l)| <= cfg.maxHeaderSize
    ensures Run(cfg, s, PrintStatusLine(l)) ==
            Running(StatusLineRead(s, l), [MessageBegin] + (Singles(StatusData, l.reason) + [Data(StatusData, [])]))
  {
    hide AtRest, StepByte, Run, Singles, IsStatusLine, Digit, CodeValue, NoBreaks, PrintCode, PrintStatusLine, CodeRead;
    CodeLength(l);
    AfterCode(s, l);
    AfterCode(s.(nread := s.nread + 13), l);
    RunCode(cfg, s, l, 13);
    assert PrintCode(l)[..13] == PrintCode(l);
    RunAppend(cfg, s, PrintCode(l), l.reason + [CR, LF]);
    ReasonLine(cfg, Run(cfg, s, PrintCode(l)).parser, l.reason);
  }
}
