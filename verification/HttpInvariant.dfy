/** What every transition of the byte machine keeps: the invariant of reachable parsers,
    the rank that bounds how often a byte is looked at, and the discipline of the marks. */
module HttpInvariant {
  import opened Wrappers
  import opened HttpTypes
  import opened HttpMachine

  /** How many more times a byte may be looked at again. */
  function Rank(state: State): nat {
    if state.HeaderValue? then 6
    else if state.HeaderAlmostDone? || state.HeaderValueLws? then 5
    else if state.HeaderValueDiscardLws? then 4
    else if state.HeaderFieldStart? then 3
    else if state.HeadersAlmostDone? || state.ResStatusCode? then 2
    else if state.HeadersDone? || state.ResStatusStart? || state.BodyIdentity? || state.StartReqOrRes? then 1
    else 0
  }

  /** The span that is open whenever the parser rests in `state`. */
  function OpenAt(state: State): Option<DataKind> {
    if state.HeaderField? then Some(HeaderFieldData)
    else if state.HeaderValue? then Some(HeaderValueData)
    else if InUrl(state) then Some(UrlData)
    else if state.ResStatus? then Some(StatusData)
    else None
  }

  /** The states in which a body span may be open, or not, depending on where the input was cut. */
  predicate BodyMayBeOpen(state: State) {
    state.BodyIdentity? || state.BodyIdentityEof? || state.ChunkData? || state.ChunkDataAlmostDone?
  }

  /** The span open after `effect`; None when the effect would open a second span, or
      run a notification while a span is open. */
  function SpanAfter(before: Option<DataKind>, effect: Effect): Option<Option<DataKind>> {
    match effect
    case Quiet => Some(before)
    case Mark(k) => if before == None || before == Some(k) then Some(Some(k)) else None
    case Flush(k) => if before == None || before == Some(k) then Some(None) else None
    case MarkAndFlush(_) | MarkAndFlushThrough(_) | Notify(_) => if before == None then Some(None) else None
  }

  predicate Tidy(before: Option<DataKind>, effect: Effect, after: Option<DataKind>) {
    SpanAfter(before, effect) == Some(after)
  }

  predicate TidyTo(before: Option<DataKind>, effect: Effect, state: State) {
    Tidy(before, effect, OpenAt(state)) || (BodyMayBeOpen(state) && Tidy(before, effect, Some(BodyData)))
  }

  /** The parser a transition leaves behind is a reachable one, and looking at the same
      byte again lowers the rank. */
  ghost predicate Keeps(s: Parser, step: Step) {
    match step
    case Consume(s', _) =>
      Inv(s') && (s'.state == ChunkSizeStart ==> s'.nread == 0) && (s'.nread == s.nread || s'.nread == 0)
    case Again(s', _) =>
      Inv(s') && s'.state != ChunkSizeStart && s'.nread == s.nread && Rank(s'.state) < Rank(s.state)
      && !BodyMayBeOpen(s'.state)
    case Leave(s', _) => Inv(s') && s'.state != ChunkSizeStart && (s'.nread == s.nread || s'.nread == 0)
    case Fail(e) => e != Ok && e != HeaderOverflow
  }

  /** A transition respects the marks. */
  ghost predicate Spans(s: Parser, step: Step) {
    match step
    case Consume(s', effect) => Resting(s'.state) && TidyTo(OpenAt(s.state), effect, s'.state)
    case Again(s', effect) => Tidy(OpenAt(s.state), effect, OpenAt(s'.state))
    case Leave(s', effect) =>
      Resting(s'.state) && Tidy(OpenAt(s.state), effect, None) && OpenAt(s'.state) == None
    case Fail(_) => true
  }

  /** The states a call can end in without an error; the others are always left on the same byte. */
  predicate Resting(state: State) {
    state != HeadersDone && state != MessageDone && state != HeaderValueStart && state != Dead
  }

  lemma StartKeeps(s: Parser, ch: Byte)
    requires Inv(s) && GroupOf(s.state) == StartGroup
    ensures Keeps(s, Start(s, ch))
  {
  }

  lemma ResponseVersionKeeps(s: Parser, ch: Byte)
    requires Inv(s) && GroupOf(s.state) == ResponseVersionGroup
    ensures Keeps(s, ResponseVersion(s, ch))
  {
    hide FieldState, ValueState, MethodName;
  }

  lemma StatusCodeKeeps(s: Parser, ch: Byte)
    requires Inv(s) && (s.state == ResFirstStatusCode || s.state == ResStatusCode)
    ensures Keeps(s, StatusLine(s, ch))
  {
    hide FieldState, ValueState, MethodName;
  }

  lemma StatusLineKeeps(s: Parser, ch: Byte)
    requires Inv(s) && GroupOf(s.state) == StatusGroup
    ensures Keeps(s, StatusLine(s, ch))
  {
    hide FieldState, ValueState, MethodName;
    if s.state == ResFirstStatusCode || s.state == ResStatusCode {
      StatusCodeKeeps(s, ch);
    }
  }

  lemma MethodKeeps(s: Parser, ch: Byte)
    requires Inv(s) && GroupOf(s.state) == MethodGroup
    ensures Keeps(s, Method(s, ch))
  {
    hide FieldState, ValueState;
  }

  lemma UrlKeeps(s: Parser, ch: Byte)
    requires Inv(s) && GroupOf(s.state) == UrlGroup
    ensures Keeps(s, Url(s, ch))
  {
  }

  lemma RequestVersionKeeps(s: Parser, ch: Byte)
    requires Inv(s) && GroupOf(s.state) == RequestVersionGroup
    ensures Keeps(s, RequestVersion(s, ch))
  {
    hide FieldState, ValueState, MethodName;
  }

  lemma FieldKeeps(s: Parser, ch: Byte)
    requires Inv(s) && GroupOf(s.state) == FieldGroup
    ensures Keeps(s, Field(s, ch))
  {
    hide ValueState, MethodName, Token, MatchName;
  }

  lemma StartValueKeeps(s: Parser, ch: Byte)
    requires Inv(s) && (s.state == HeaderValueStart || s.state == HeaderValueDiscardWs)
    ensures Keeps(s, StartValue(s, ch))
  {
  }

  lemma ValueKeeps(s: Parser, ch: Byte)
    requires Inv(s) && GroupOf(s.state) == ValueGroup
    ensures Keeps(s, Value(s, ch))
  {
    hide FieldState, MethodName, StartValue;
    if s.state != HeaderValue {
      StartValueKeeps(s, ch);
    }
  }

  lemma EndOfValueKeeps(s: Parser, ch: Byte)
    requires Inv(s) && GroupOf(s.state) == EndOfValueGroup
    ensures Keeps(s, EndOfValue(s, ch))
  {
    hide FieldState, MethodName;
  }

  lemma EndHeadersKeeps(cfg: Settings, s: Parser)
    requires Inv(s) && GroupOf(s.state) == EndGroup
    ensures Keeps(s, EndHeaders(cfg, s))
  {
    hide FieldState, ValueState, MethodName;
  }

  lemma ChooseBodyKeeps(s: Parser)
    requires Inv(s) && GroupOf(s.state) == ChooseGroup
    ensures Keeps(s, ChooseBody(s))
  {
    hide FieldState, ValueState, MethodName;
  }

  lemma IdentityKeeps(s: Parser)
    requires Inv(s) && GroupOf(s.state) == IdentityGroup
    ensures Keeps(s, Identity(s))
  {
    hide FieldState, ValueState, MethodName;
  }

  lemma ChunkLineKeeps(s: Parser, ch: Byte)
    requires Inv(s) && GroupOf(s.state) == ChunkLineGroup
    ensures Keeps(s, ChunkLine(s, ch))
  {
  }

  lemma ChunkBodyKeeps(s: Parser)
    requires Inv(s) && GroupOf(s.state) == ChunkBodyGroup
    ensures Keeps(s, ChunkBody(s))
  {
    hide FieldState, ValueState, MethodName;
  }

  lemma StartSpans(s: Parser, ch: Byte)
    requires Inv(s) && GroupOf(s.state) == StartGroup
    ensures Spans(s, Start(s, ch))
  {
  }

  lemma ResponseVersionSpans(s: Parser, ch: Byte)
    requires Inv(s) && GroupOf(s.state) == ResponseVersionGroup
    ensures Spans(s, ResponseVersion(s, ch))
  {
    hide Inv;
  }

  lemma StatusLineSpans(s: Parser, ch: Byte)
    requires Inv(s) && GroupOf(s.state) == StatusGroup
    ensures Spans(s, StatusLine(s, ch))
  {
    hide Inv;
  }

  lemma MethodSpans(s: Parser, ch: Byte)
    requires Inv(s) && GroupOf(s.state) == MethodGroup
    ensures Spans(s, Method(s, ch))
  {
    hide Inv;
  }

  lemma UrlSpans(s: Parser, ch: Byte)
    requires Inv(s) && GroupOf(s.state) == UrlGroup
    ensures Spans(s, Url(s, ch))
  {
    hide Inv;
  }

  lemma RequestVersionSpans(s: Parser, ch: Byte)
    requires Inv(s) && GroupOf(s.state) == RequestVersionGroup
    ensures Spans(s, RequestVersion(s, ch))
  {
    hide Inv;
  }

  lemma FieldSpans(s: Parser, ch: Byte)
    requires Inv(s) && GroupOf(s.state) == FieldGroup
    ensures Spans(s, Field(s, ch))
  {
    hide Inv, FieldByte, Token;
  }

  lemma StartValueSpans(s: Parser, ch: Byte)
    requires Inv(s) && (s.state == HeaderValueStart || s.state == HeaderValueDiscardWs)
    ensures Spans(s, StartValue(s, ch))
  {
  }

  lemma ValueSpans(s: Parser, ch: Byte)
    requires Inv(s) && GroupOf(s.state) == ValueGroup
    ensures Spans(s, Value(s, ch))
  {
    hide Inv, ValueByte, StartValue;
    if s.state != HeaderValue {
      StartValueSpans(s, ch);
    }
  }

  lemma EndOfValueSpans(s: Parser, ch: Byte)
    requires Inv(s) && GroupOf(s.state) == EndOfValueGroup
    ensures Spans(s, EndOfValue(s, ch))
  {
    hide Inv;
  }

  lemma EndHeadersSpans(cfg: Settings, s: Parser)
    requires Inv(s) && GroupOf(s.state) == EndGroup
    ensures Spans(s, EndHeaders(cfg, s))
  {
    hide Inv;
  }

  lemma ChooseBodySpans(s: Parser)
    requires Inv(s) && GroupOf(s.state) == ChooseGroup
    ensures Spans(s, ChooseBody(s))
  {
    hide Inv;
  }

  lemma IdentitySpans(s: Parser)
    requires Inv(s) && GroupOf(s.state) == IdentityGroup
    ensures Spans(s, Identity(s))
  {
    hide Inv;
  }

  lemma ChunkLineSpans(s: Parser, ch: Byte)
    requires Inv(s) && GroupOf(s.state) == ChunkLineGroup
    ensures Spans(s, ChunkLine(s, ch))
  {
    hide Inv;
  }

  lemma ChunkBodySpans(s: Parser)
    requires Inv(s) && GroupOf(s.state) == ChunkBodyGroup
    ensures Spans(s, ChunkBody(s))
  {
    hide Inv;
  }

  /** Every transition from a reachable parser leads to a reachable parser, respects the
      marks, and if it looks at the same byte again does so with a lower rank. */
  lemma OnceKeeps(cfg: Settings, s: Parser, ch: Byte)
    requires Inv(s)
    ensures Keeps(s, Once(cfg, s, ch))
  {
    match GroupOf(s.state)
    case StartGroup => StartKeeps(s, ch);
    case ResponseVersionGroup => ResponseVersionKeeps(s, ch);
    case StatusGroup => StatusLineKeeps(s, ch);
    case MethodGroup => MethodKeeps(s, ch);
    case UrlGroup => UrlKeeps(s, ch);
    case RequestVersionGroup => RequestVersionKeeps(s, ch);
    case FieldGroup => FieldKeeps(s, ch);
    case ValueGroup => ValueKeeps(s, ch);
    case EndOfValueGroup => EndOfValueKeeps(s, ch);
    case EndGroup => EndHeadersKeeps(cfg, s);
    case ChooseGroup => ChooseBodyKeeps(s);
    case IdentityGroup => IdentityKeeps(s);
    case ChunkLineGroup => ChunkLineKeeps(s, ch);
    case ChunkBodyGroup => ChunkBodyKeeps(s);
  }

  lemma OnceSpans(cfg: Settings, s: Parser, ch: Byte)
    requires Inv(s)
    ensures Spans(s, Once(cfg, s, ch))
  {
    match GroupOf(s.state)
    case StartGroup => StartSpans(s, ch);
    case ResponseVersionGroup => ResponseVersionSpans(s, ch);
    case StatusGroup => StatusLineSpans(s, ch);
    case MethodGroup => MethodSpans(s, ch);
    case UrlGroup => UrlSpans(s, ch);
    case RequestVersionGroup => RequestVersionSpans(s, ch);
    case FieldGroup => FieldSpans(s, ch);
    case ValueGroup => ValueSpans(s, ch);
    case EndOfValueGroup => EndOfValueSpans(s, ch);
    case EndGroup => EndHeadersSpans(cfg, s);
    case ChooseGroup => ChooseBodySpans(s);
    case IdentityGroup => IdentitySpans(s);
    case ChunkLineGroup => ChunkLineSpans(s, ch);
    case ChunkBodyGroup => ChunkBodySpans(s);
  }
}
