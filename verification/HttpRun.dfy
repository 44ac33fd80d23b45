/** Runs of the byte machine over an input, and the trace of callbacks they make. */
module HttpRun {
  import opened Wrappers
  import opened HttpTypes
  import opened HttpMachine
  import opened HttpInvariant
  import opened HttpTrace

  /** How a run over an input ends. */
  datatype Outcome =
    | Running(parser: Parser, events: seq<Event>)                   // the input is used up
    | Left(parser: Parser, events: seq<Event>, consumed: nat)       // another protocol follows
    | Failed(errno: Errno, consumed: nat)
  {
    function After(before: seq<Event>, skipped: nat): Outcome {
      match this
      case Running(s, events) => Running(s, before + events)
      case Left(s, events, n) => Left(s, before + events, skipped + n)
      case Failed(e, n) => Failed(e, skipped + n)
    }
  }

  /** The parsers a call can start from, and leave behind when it does not fail. */
  predicate AtRest(cfg: Settings, s: Parser) {
    && Inv(s)
    && Resting(s.state)
    && s.nread <= cfg.maxHeaderSize
    && (s.state == ChunkSizeStart ==> s.nread == 0)
  }

  lemma RestIsOk(cfg: Settings, s: Parser)
    requires AtRest(cfg, s)
    ensures s.errno == Ok
  {
  }

  lemma InLimit(cfg: Settings, s: Parser)
    requires AtRest(cfg, s)
    ensures Inv(s) && s.nread <= cfg.maxHeaderSize
  {
  }

  /** The events of one effect, for a machine that reports each byte of data on its own. */
  function EffectEvents(open: Option<DataKind>, effect: Effect, ch: Byte): seq<Event> {
    match effect
    case Quiet | Mark(_) => []
    case Flush(k) => if open == Some(k) then [Data(k, [])] else []
    case MarkAndFlush(k) => [Data(k, [])]
    case MarkAndFlushThrough(k) => [Data(k, [ch])]
    case Notify(e) => [e]
  }

  /** The data event of a byte that ends with a span open. */
  function Closing(open: Option<DataKind>, ch: Byte): seq<Event> {
    if open.Some? then [Data(open.value, [ch])] else []
  }

  /** What a byte does once it has been counted, looked at as often as it takes. */
  function CountedByte(cfg: Settings, s: Parser, ch: Byte): (r: Outcome)
    requires Inv(s) && s.nread <= cfg.maxHeaderSize
    ensures r.Running? ==> AtRest(cfg, r.parser)
    ensures r.Left? ==> AtRest(cfg, r.parser) && r.consumed == 1
    ensures r.Failed? ==> r.errno != Ok && r.errno != HeaderOverflow && r.consumed == 0
    decreases Rank(s.state)
  {
    OnceKeeps(cfg, s, ch);
    OnceSpans(cfg, s, ch);
    var open := OpenAt(s.state);
    match Once(cfg, s, ch)
    case Consume(s', effect) =>
      Running(s', EffectEvents(open, effect, ch) + Closing(SpanAfter(open, effect).value, ch))
    case Again(s', effect) => CountedByte(cfg, s', ch).After(EffectEvents(open, effect, ch), 0)
    case Leave(s', effect) => Left(s', EffectEvents(open, effect, ch), 1)
    case Fail(e) => Failed(e, 0)
  }

  function Count(s: Parser): Parser {
    if s.state.ParsingHeader() then s.(nread := s.nread + 1) else s
  }

  lemma CountKeepsInv(cfg: Settings, s: Parser)
    requires AtRest(cfg, s)
    ensures Inv(Count(s))
  {
  }

  /** One byte, counted against the header size limit first. */
  function StepByte(cfg: Settings, s: Parser, ch: Byte): (r: Outcome)
    requires AtRest(cfg, s)
    ensures r.Running? ==> AtRest(cfg, r.parser)
    ensures r.Left? ==> AtRest(cfg, r.parser) && r.consumed == 1
    ensures r.Failed? ==> r.errno != Ok && r.consumed == 0
  {
    if Count(s).nread > cfg.maxHeaderSize then Failed(HeaderOverflow, 0) else CountedByte(cfg, Count(s), ch)
  }

  /** A byte that is looked at again. */
  lemma CountedAgain(cfg: Settings, s: Parser, ch: Byte, s': Parser, effect: Effect)
    requires Inv(s) && s.nread <= cfg.maxHeaderSize && Once(cfg, s, ch) == Again(s', effect)
    ensures Inv(s') && s'.nread <= cfg.maxHeaderSize
    ensures CountedByte(cfg, s, ch) == CountedByte(cfg, s', ch).After(EffectEvents(OpenAt(s.state), effect, ch), 0)
  {
    hide Once, Inv;
    OnceKeeps(cfg, s, ch);
    OnceSpans(cfg, s, ch);
  }

  /** A byte that is consumed at once. */
  lemma CountedConsume(cfg: Settings, s: Parser, ch: Byte, s': Parser, effect: Effect)
    requires Inv(s) && s.nread <= cfg.maxHeaderSize && Once(cfg, s, ch) == Consume(s', effect)
    ensures SpanAfter(OpenAt(s.state), effect).Some?
    ensures CountedByte(cfg, s, ch) ==
            Running(s', EffectEvents(OpenAt(s.state), effect, ch) + Closing(SpanAfter(OpenAt(s.state), effect).value, ch))
  {
    hide Once, Inv;
    OnceKeeps(cfg, s, ch);
    OnceSpans(cfg, s, ch);
  }

  lemma StepConsume(cfg: Settings, s: Parser, ch: Byte, s': Parser, effect: Effect)
    requires AtRest(cfg, s) && Count(s).nread <= cfg.maxHeaderSize && Inv(Count(s))
    requires Once(cfg, Count(s), ch) == Consume(s', effect)
    ensures SpanAfter(OpenAt(s.state), effect).Some?
    ensures StepByte(cfg, s, ch) ==
            Running(s', EffectEvents(OpenAt(s.state), effect, ch) + Closing(SpanAfter(OpenAt(s.state), effect).value, ch))
  {
    hide Once, Inv, CountedByte;
    CountedConsume(cfg, Count(s), ch, s', effect);
  }

  lemma StepFail(cfg: Settings, s: Parser, ch: Byte, e: Errno)
    requires AtRest(cfg, s) && Count(s).nread <= cfg.maxHeaderSize && Inv(Count(s))
    requires Once(cfg, Count(s), ch) == Fail(e)
    ensures StepByte(cfg, s, ch) == Failed(e, 0)
  {
    hide Once, Inv;
  }

  /** A run over `input`, one byte at a time. */
  function Run(cfg: Settings, s: Parser, input: Bytes): (r: Outcome)
    requires AtRest(cfg, s)
    ensures r.Running? ==> AtRest(cfg, r.parser)
    ensures r.Left? ==> AtRest(cfg, r.parser) && 1 <= r.consumed <= |input|
    ensures r.Failed? ==> r.errno != Ok && r.consumed < |input|
  {
    if input == [] then Running(s, [])
    else
      var n := |input| - 1;
      match Run(cfg, s, input[..n])
      case Running(s', events) => StepByte(cfg, s', input[n]).After(events, n)
      case other => other
  }

  lemma AfterAfter(r: Outcome, a: seq<Event>, m: nat, b: seq<Event>, n: nat)
    ensures r.After(b, n).After(a, m) == r.After(a + b, m + n)
  {
    if !r.Failed? {
      assert a + (b + r.events) == a + b + r.events;
    }
  }

  lemma RunSnoc(cfg: Settings, s: Parser, input: Bytes, ch: Byte)
    requires AtRest(cfg, s)
    ensures var r := Run(cfg, s, input);
            Run(cfg, s, input + [ch]) ==
              if r.Running? then StepByte(cfg, r.parser, ch).After(r.events, |input|) else r
  {
    hide StepByte, AtRest;
    assert (input + [ch])[..|input|] == input;
  }

  lemma RunNil(cfg: Settings, s: Parser)
    requires AtRest(cfg, s)
    ensures Run(cfg, s, []) == Running(s, [])
  {
  }

  lemma RunFirst(cfg: Settings, s: Parser, ch: Byte)
    requires AtRest(cfg, s)
    ensures Run(cfg, s, [ch]) == StepByte(cfg, s, ch)
  {
    hide StepByte, AtRest;
    assert [ch][..0] == [];
    var r := StepByte(cfg, s, ch);
    assert !r.Failed? ==> [] + r.events == r.events;
  }

  /** Running on: a run over a ++ b is the run over a, and the run over b from where that stopped. */
  lemma {:induction false} RunAppend(cfg: Settings, s: Parser, a: Bytes, b: Bytes)
    requires AtRest(cfg, s)
    ensures var r := Run(cfg, s, a);
            Run(cfg, s, a + b) == if r.Running? then Run(cfg, r.parser, b).After(r.events, |a|) else r
    decreases |b|
  {
    hide StepByte, AtRest;
    var r := Run(cfg, s, a);
    if b == [] {
      assert a + b == a;
      assert r.Running? ==> r.events + [] == r.events;
    } else {
      var init, ch := b[..|b| - 1], b[|b| - 1];
      assert a + b == a + init + [ch] && b == init + [ch];
      RunAppend(cfg, s, a, init);
      RunSnoc(cfg, s, a + init, ch);
      if r.Running? {
        RunSnoc(cfg, r.parser, init, ch);
        var r2 := Run(cfg, r.parser, init);
        if r2.Running? {
          AfterAfter(StepByte(cfg, r2.parser, ch), r.events, |a|, r2.events, |init|);
        }
      }
    }
  }
}
