/** The parser as the program runs it: one call over a buffer, with data marks, batched
    header and body bytes, and bytes looked at again, against the byte machine. */
module HttpExecute {
  import opened Wrappers
  import opened HttpTypes
  import opened HttpMachine
  import opened HttpInvariant
  import opened HttpTrace
  import opened HttpRun
  import opened HttpMarks
  import opened HttpBatch

  /** How far a call has come: still going, gone to another protocol, or stopped by an error. */
  datatype Progress = Going | Gone | Errored

  /** The call is at data[p], in step with a run of the byte machine over data[..p]. */
  ghost predicate At(cfg: Settings, s0: Parser, data: Bytes, p: nat, s: Parser, marks: Marks, events: seq<Event>)
    requires AtRest(cfg, s0) && p <= |data|
  {
    var r := Run(cfg, s0, data[..p]);
    && r.Running? && r.parser == s
    && Matches(marks, s.state, p)
    && if p == 0 then events == [] && marks == InitialMarks(s.state)
       else Join(events + FlushAll(data, marks, p)) == Join(r.events)
  }

  /** What part of a call has achieved, against the byte machine. */
  ghost predicate Agrees(cfg: Settings, s0: Parser, data: Bytes, progress: Progress, p: nat, s: Parser,
                         marks: Marks, events: seq<Event>)
    requires AtRest(cfg, s0) && p <= |data|
  {
    match progress
    case Going => At(cfg, s0, data, p, s, marks, events)
    case Gone =>
      var r := Run(cfg, s0, data);
      r.Left? && r.parser == s && r.consumed == p && Join(events) == Join(r.events)
    case Errored =>
      var r := Run(cfg, s0, data);
      r.Failed? && s.errno != Ok && (r.errno == HeaderOverflow || (s.errno == r.errno && p == r.consumed))
  }

  // ----- runs of prefixes

  lemma RunTo(cfg: Settings, s0: Parser, data: Bytes, p: nat, q: nat)
    requires AtRest(cfg, s0) && p <= q <= |data|
    ensures var r := Run(cfg, s0, data[..p]);
            Run(cfg, s0, data[..q]) == if r.Running? then Run(cfg, r.parser, data[p..q]).After(r.events, p) else r
  {
    assert data[..p] + data[p..q] == data[..q];
    RunAppend(cfg, s0, data[..p], data[p..q]);
  }

  /** A run that has stopped is not changed by more input. */
  lemma RunStopped(cfg: Settings, s0: Parser, data: Bytes, p: nat)
    requires AtRest(cfg, s0) && p <= |data| && !Run(cfg, s0, data[..p]).Running?
    ensures Run(cfg, s0, data) == Run(cfg, s0, data[..p])
  {
    RunTo(cfg, s0, data, p, |data|);
    assert data[..|data|] == data;
  }

  lemma RunByte(cfg: Settings, s0: Parser, data: Bytes, p: nat)
    requires AtRest(cfg, s0) && p < |data|
    ensures var r := Run(cfg, s0, data[..p]);
            Run(cfg, s0, data[..p + 1]) ==
              if r.Running? then StepByte(cfg, r.parser, data[p]).After(r.events, p) else r
  {
    assert data[..p + 1] == data[..p] + [data[p]];
    RunSnoc(cfg, s0, data[..p], data[p]);
  }

  /** Before a byte is looked at, what is reported and what is open are in step. */
  lemma GlueAt(cfg: Settings, s0: Parser, data: Bytes, p: nat, s: Parser, marks: Marks, events: seq<Event>)
    requires AtRest(cfg, s0) && p < |data| && At(cfg, s0, data, p, s, marks, events)
    requires MarksAre(marks, OpenAt(s.state), p)
    ensures Glued(data, marks, p, events, OpenAt(s.state), Run(cfg, s0, data[..p]).events)
  {
    hide StepByte, Inv;
    var simple := Run(cfg, s0, data[..p]).events;
    if p == 0 {
      FlushOne(data, marks, OpenAt(s.state), p);
      assert data[0..0] == [];
    } else {
      GlueHead(data, marks, p, events, OpenAt(s.state), simple);
    }
  }

  // ----- looking at one byte until it is consumed

  /** The marks are right for looking at data[p] in `state`. */
  ghost predicate Looking(data: Bytes, p: nat, state: State, marks: Marks, events: seq<Event>, simple: seq<Event>) {
    || (MarksAre(marks, OpenAt(state), p) && Glued(data, marks, p, events, OpenAt(state), simple))
    || (state == ChunkDataAlmostDone && MarksAre(marks, Some(BodyData), p)
        && Join(events + FlushAll(data, marks, p)) == Join(simple))
  }

  lemma LookFlush(data: Bytes, p: nat, marks: Marks, events: seq<Event>, simple: seq<Event>)
    requires p < |data| && MarksAre(marks, Some(BodyData), p)
    requires Join(events + FlushAll(data, marks, p)) == Join(simple)
    ensures var (marks', more) := Perform(data, p, marks, Flush(BodyData));
            MarksAre(marks', None, p) && Glued(data, marks', p, events + more, None, simple + [])
  {
    hide Join, FlushAll;
    GlueBodyFlush(data, p, marks, events, simple);
    var (marks', more) := Perform(data, p, marks, Flush(BodyData));
    FlushOne(data, marks', None, p);
    assert simple + [] + [] == simple;
    assert events + more + [] == events + more;
  }

  /** Perform one effect; see `GlueEffect`. */
  lemma Look(data: Bytes, p: nat, s: Parser, effect: Effect, marks: Marks, events: seq<Event>, simple: seq<Event>)
    requires p < |data| && Looking(data, p, s.state, marks, events, simple)
    requires s.state == ChunkDataAlmostDone ==> effect == Flush(BodyData)
    requires SpanAfter(OpenAt(s.state), effect).Some?
    ensures var (marks', more) := Perform(data, p, marks, effect);
            var open := SpanAfter(OpenAt(s.state), effect).value;
            && MarksAre(marks', open, p)
            && Glued(data, marks', p, events + more, open,
                     simple + EffectEvents(OpenAt(s.state), effect, data[p]))
  {
    hide Join, FlushAll, Perform, Glued, MarksAre;
    if MarksAre(marks, OpenAt(s.state), p) && Glued(data, marks, p, events, OpenAt(s.state), simple) {
      hide OpenAt, SpanAfter, EffectEvents;
      GlueEffect(data, p, marks, OpenAt(s.state), effect, events, simple);
    } else {
      LookFlush(data, p, marks, events, simple);
    }
  }

  lemma AlmostDoneEffect(cfg: Settings, s: Parser, ch: Byte)
    requires Inv(s) && s.state == ChunkDataAlmostDone
    ensures Once(cfg, s, ch) == Consume(s.(state := ChunkDataDone), Flush(BodyData))
  {
  }

  lemma SpanMatches(s: Parser, s': Parser, effect: Effect, marks: Marks, p: nat)
    requires Spans(s, Consume(s', effect)) && SpanAfter(OpenAt(s.state), effect).Some?
    requires MarksAre(marks, SpanAfter(OpenAt(s.state), effect).value, p)
    ensures Matches(marks, s'.state, p)
  {
    hide OpenAt, SpanAfter, MarksAre, BodyMayBeOpen;
  }

  lemma RegroupAll(a: seq<Event>, b: seq<Event>, c: seq<Event>, d: seq<Event>)
    ensures a + b + c + d == a + (b + (c + d))
  {
  }

  /** The byte is consumed. */
  lemma Consumed(cfg: Settings, data: Bytes, p: nat, s: Parser, marks: Marks, events: seq<Event>,
                 simple: seq<Event>, seen: seq<Event>)
    requires p < |data| && Inv(s) && s.nread <= cfg.maxHeaderSize && Once(cfg, s, data[p]).Consume?
    requires Looking(data, p, s.state, marks, events, simple + seen)
    ensures var step := Once(cfg, s, data[p]);
            var (marks', more) := Perform(data, p, marks, step.effect);
            var r := CountedByte(cfg, s, data[p]).After(seen, 0);
            && r.Running? && r.parser == step.parser && Matches(marks', step.parser.state, p + 1)
            && Join(events + more + FlushAll(data, marks', p + 1)) == Join(simple + r.events)
  {
    hide Once, Inv, Join, FlushAll, Perform, CountedByte, Looking, Glued, MarksAre, Matches, Spans, OpenAt, SpanAfter,
      EffectEvents, Closing;
    OnceSpans(cfg, s, data[p]);
    if s.state == ChunkDataAlmostDone {
      AlmostDoneEffect(cfg, s, data[p]);
    }
    var step := Once(cfg, s, data[p]);
    CountedConsume(cfg, s, data[p], step.parser, step.effect);
    var open := SpanAfter(OpenAt(s.state), step.effect).value;
    Look(data, p, s, step.effect, marks, events, simple + seen);
    var here, close := EffectEvents(OpenAt(s.state), step.effect, data[p]), Closing(open, data[p]);
    var (marks', more) := Perform(data, p, marks, step.effect);
    GlueTail(data, p, marks', open, events + more, simple + seen + here);
    SpanMatches(s, step.parser, step.effect, marks', p + 1);
    RegroupAll(simple, seen, here, close);
  }

  /** The byte is consumed and the call returns. */
  lemma HasLeft(cfg: Settings, data: Bytes, p: nat, s: Parser, marks: Marks, events: seq<Event>,
                simple: seq<Event>, seen: seq<Event>)
    requires p < |data| && Inv(s) && s.nread <= cfg.maxHeaderSize && Once(cfg, s, data[p]).Leave?
    requires Looking(data, p, s.state, marks, events, simple + seen)
    ensures var step := Once(cfg, s, data[p]);
            var (marks', more) := Perform(data, p, marks, step.effect);
            var r := CountedByte(cfg, s, data[p]).After(seen, 0);
            r.Left? && r.parser == step.parser && Join(events + more) == Join(simple + r.events)
  {
    hide Once, Inv, Join, Perform;
    OnceSpans(cfg, s, data[p]);
    if s.state == ChunkDataAlmostDone {
      AlmostDoneEffect(cfg, s, data[p]);
    }
    var step := Once(cfg, s, data[p]);
    Look(data, p, s, step.effect, marks, events, simple + seen);
    var here := EffectEvents(OpenAt(s.state), step.effect, data[p]);
    var (marks', more) := Perform(data, p, marks, step.effect);
    FlushOne(data, marks', None, p);
    assert events + more + [] == events + more;
    assert simple + seen + here + [] == simple + (seen + here);
  }

  /** The byte is looked at again. */
  lemma GoesOn(cfg: Settings, data: Bytes, p: nat, s: Parser, marks: Marks, events: seq<Event>,
               simple: seq<Event>, seen: seq<Event>)
    requires p < |data| && Inv(s) && s.nread <= cfg.maxHeaderSize && Once(cfg, s, data[p]).Again?
    requires Looking(data, p, s.state, marks, events, simple + seen)
    ensures var step := Once(cfg, s, data[p]);
            var (marks', more) := Perform(data, p, marks, step.effect);
            var here := EffectEvents(OpenAt(s.state), step.effect, data[p]);
            && Inv(step.parser) && step.parser.nread == s.nread && Rank(step.parser.state) < Rank(s.state)
            && Looking(data, p, step.parser.state, marks', events + more, simple + (seen + here))
            && CountedByte(cfg, s, data[p]).After(seen, 0) ==
               CountedByte(cfg, step.parser, data[p]).After(seen + here, 0)
  {
    hide Once, Inv, Join, Perform;
    OnceKeeps(cfg, s, data[p]);
    OnceSpans(cfg, s, data[p]);
    if s.state == ChunkDataAlmostDone {
      AlmostDoneEffect(cfg, s, data[p]);
    }
    var step := Once(cfg, s, data[p]);
    Look(data, p, s, step.effect, marks, events, simple + seen);
    var here := EffectEvents(OpenAt(s.state), step.effect, data[p]);
    assert simple + seen + here == simple + (seen + here);
    AfterAfter(CountedByte(cfg, step.parser, data[p]), seen, 0, here, 0);
  }

  /** The switch over the states, and its `goto reexecute`. */
  method Reexecute(cfg: Settings, data: Bytes, p: nat, s0: Parser, marks0: Marks, events0: seq<Event>,
                   ghost simple: seq<Event>)
    returns (progress: Progress, s: Parser, marks: Marks, events: seq<Event>)
    requires p < |data| && Inv(s0) && s0.nread <= cfg.maxHeaderSize
    requires Looking(data, p, s0.state, marks0, events0, simple)
    ensures var r := CountedByte(cfg, s0, data[p]);
            && (r.Running? ==>
                  && progress.Going? && s == r.parser && Matches(marks, s.state, p + 1)
                  && Join(events + FlushAll(data, marks, p + 1)) == Join(simple + r.events))
            && (r.Left? ==> progress.Gone? && s == r.parser && Join(events) == Join(simple + r.events))
            && (r.Failed? ==> progress.Errored? && s.errno == r.errno)
  {
    hide Once, Inv, Join, FlushAll, Perform, Looking, Matches, Rank, EffectEvents, OpenAt, SpanAfter, Closing;
    s, marks, events := s0, marks0, events0;
    ghost var whole := CountedByte(cfg, s0, data[p]);
    ghost var seen: seq<Event> := [];
    assert simple + seen == simple;
    assert whole == whole.After(seen, 0) by {
      assert !whole.Failed? ==> seen + whole.events == whole.events;
    }
    while true
      invariant Inv(s) && s.nread <= cfg.maxHeaderSize
      invariant Looking(data, p, s.state, marks, events, simple + seen)
      invariant whole == CountedByte(cfg, s, data[p]).After(seen, 0)
      decreases Rank(s.state)
    {
      var step := Once(cfg, s, data[p]);
      if step.Fail? {
        progress, s := Errored, s.(errno := step.errno);
        return;
      }
      ghost var here := EffectEvents(OpenAt(s.state), step.effect, data[p]);
      var (marks', callbacks) := Perform(data, p, marks, step.effect);
      if step.Consume? {
        Consumed(cfg, data, p, s, marks, events, simple, seen);
        progress, s, marks, events := Going, step.parser, marks', events + callbacks;
        return;
      }
      if step.Leave? {
        HasLeft(cfg, data, p, s, marks, events, simple, seen);
        progress, s, marks, events := Gone, step.parser, marks', events + callbacks;
        return;
      }
      GoesOn(cfg, data, p, s, marks, events, simple, seen);
      seen, s, marks, events := seen + here, step.parser, marks', events + callbacks;
    }
  }

  // ----- one round of the loop over the input

  /** The bytes up to data[p] have been run, and data[p] is over the header limit. */
  lemma OverLimit(cfg: Settings, s0: Parser, data: Bytes, p: nat)
    requires AtRest(cfg, s0) && p < |data|
    requires Run(cfg, s0, data[..p]).Running? && Count(Run(cfg, s0, data[..p]).parser).nread > cfg.maxHeaderSize
    ensures Run(cfg, s0, data) == Failed(HeaderOverflow, p)
  {
    hide Inv, Run, CountedByte;
    RunByte(cfg, s0, data, p);
    RunStopped(cfg, s0, data, p + 1);
  }

  lemma OneByte(cfg: Settings, s0: Parser, data: Bytes, p: nat)
    requires AtRest(cfg, s0) && p < |data|
    requires Run(cfg, s0, data[..p]).Running? && Count(Run(cfg, s0, data[..p]).parser).nread <= cfg.maxHeaderSize
    ensures var r := Run(cfg, s0, data[..p]);
            var b := CountedByte(cfg, Count(r.parser), data[p]);
            && (b.Running? ==> Run(cfg, s0, data[..p + 1]) == Running(b.parser, r.events + b.events))
            && (b.Left? ==> Run(cfg, s0, data) == Left(b.parser, r.events + b.events, p + 1))
            && (b.Failed? ==> Run(cfg, s0, data) == Failed(b.errno, p))
  {
    hide Inv, Run, CountedByte;
    RunByte(cfg, s0, data, p);
    if !Run(cfg, s0, data[..p + 1]).Running? {
      RunStopped(cfg, s0, data, p + 1);
    }
  }

  /** A byte in a state that takes one byte at a time. */
  method OneByteRound(cfg: Settings, ghost s0: Parser, data: Bytes, p0: nat, s1: Parser, marks0: Marks,
                      events0: seq<Event>)
    returns (progress: Progress, p: nat, s: Parser, marks: Marks, events: seq<Event>)
    requires AtRest(cfg, s0) && p0 < |data| && Run(cfg, s0, data[..p0]).Running?
    requires var r := Run(cfg, s0, data[..p0]);
             && s1 == Count(r.parser) && s1.nread <= cfg.maxHeaderSize
             && Looking(data, p0, s1.state, marks0, events0, r.events)
    ensures p <= |data| && Agrees(cfg, s0, data, progress, p, s, marks, events)
    ensures progress.Going? ==> p == p0 + 1
  {
    hide Run, CountedByte, Looking, Inv, Join, FlushAll, Matches, Rank, OpenAt;
    assert Inv(s1) by { CountKeepsInv(cfg, Run(cfg, s0, data[..p0]).parser); }
    progress, s, marks, events := Reexecute(cfg, data, p0, s1, marks0, events0, Run(cfg, s0, data[..p0]).events);
    OneByte(cfg, s0, data, p0);
    p := if progress.Errored? then p0 else p0 + 1;
  }

  /** The limits within which 32-bit header counts do not wrap. */
  predicate CountsFit(cfg: Settings, data: Bytes) { cfg.maxHeaderSize + |data| + 1 < UINT32_RANGE }

  /** Count `v` more header bytes, in unsigned 32-bit arithmetic, against the limit. */
  method CountHeaderSize(cfg: Settings, s: Parser, v: nat) returns (within: bool, s': Parser)
    requires s.nread + v < UINT32_RANGE
    ensures within <==> s.nread + v <= cfg.maxHeaderSize
    ensures within ==> s' == s.(nread := s.nread + v)
    ensures !within ==> s'.errno == HeaderOverflow
  {
    s' := s.(nread := (s.nread + v % UINT32_RANGE) % UINT32_RANGE);
    within := s'.nread <= cfg.maxHeaderSize;
    if !within {
      s' := s'.(errno := HeaderOverflow);
    }
  }

  lemma ScansHeader(s: Parser)
    requires Inv(s)
    ensures s.state == HeaderField ==> FieldState(s.headerState)
    ensures s.state == HeaderValue ==> ReadsValue(ScanOf(s))
    ensures s.state == BodyIdentity || s.state == ChunkData ==> s.contentLength > 0
  {
  }

  /** The rest of a header name. */
  method FieldRound(cfg: Settings, ghost s0: Parser, data: Bytes, p0: nat, s1: Parser, marks0: Marks,
                    events0: seq<Event>, ghost rest: Parser)
    returns (progress: Progress, p: nat, s: Parser, marks: Marks, events: seq<Event>)
    requires AtRest(cfg, s0) && p0 < |data| && At(cfg, s0, data, p0, rest, marks0, events0) && CountsFit(cfg, data)
    requires rest.state == HeaderField && s1 == Count(rest) && s1.nread <= cfg.maxHeaderSize
    ensures p <= |data| && Agrees(cfg, s0, data, progress, p, s, marks, events)
    ensures progress.Going? ==> p > p0
  {
    hide Run, CountedByte, Join, FlushAll, FieldAll, FieldState, Inv, Looking, Matches;
    ScansHeader(rest);
    var h;
    p, h := ScanField(cfg, data, p0, ScanOf(s1));
    marks, events := marks0, events0;
    FieldBytesRun(cfg, s0, data, p0, p, rest, marks, events);
    var within;
    within, s := CountHeaderSize(cfg, WithScan(s1, h), if p == |data| then p - 1 - p0 else p - p0);
    if !within {
      if p < |data| && rest.nread + (p - p0) <= cfg.maxHeaderSize {
        OverLimit(cfg, s0, data, p);
      }
      progress := Errored;
    } else if p == |data| {
      progress := Going;
    } else {
      progress, p, s, marks, events := OneByteRound(cfg, s0, data, p, s, marks, events);
    }
  }

  /** The run of the byte machine over the bytes of a header name. */
  lemma FieldBytesRun(cfg: Settings, s0: Parser, data: Bytes, p: nat, q: nat, rest: Parser, marks: Marks,
                      events: seq<Event>)
    requires AtRest(cfg, s0) && p <= q <= |data| && p < |data| && At(cfg, s0, data, p, rest, marks, events)
    requires rest.state == HeaderField && AllTokens(data[p..q])
    ensures var n := rest.nread + (q - p);
            if n > cfg.maxHeaderSize then Run(cfg, s0, data).Failed? && Run(cfg, s0, data).errno == HeaderOverflow
            else
              var s := WithScan(rest, FieldAll(ScanOf(rest), data[p..q])).(nread := n);
              var r := Run(cfg, s0, data[..q]);
              && r.Running? && r.parser == s
              && (q > p ==> At(cfg, s0, data, q, s, marks, events))
              && (q < |data| ==> Looking(data, q, HeaderField, marks, events, r.events))
  {
    hide StepByte, Inv, Join, FlushAll, FieldAll;
    var r := Run(cfg, s0, data[..p]);
    RunTo(cfg, s0, data, p, q);
    RunField(cfg, rest, data[p..q]);
    if rest.nread + (q - p) > cfg.maxHeaderSize {
      RunStopped(cfg, s0, data, q);
    } else {
      GlueAt(cfg, s0, data, p, rest, marks, events);
      if q > p {
        GlueSpan(data, p, q, marks, HeaderFieldData, events, r.events);
        if q < |data| {
          GlueHead(data, marks, q, events, Some(HeaderFieldData), Run(cfg, s0, data[..q]).events);
        }
      } else {
        assert data[p..q] == [];
        assert r.events + [] == r.events;
      }
    }
  }

  /** The rest of a header value. */
  method ValueRound(cfg: Settings, ghost s0: Parser, data: Bytes, p0: nat, s1: Parser, marks0: Marks,
                    events0: seq<Event>, ghost rest: Parser)
    returns (progress: Progress, p: nat, s: Parser, marks: Marks, events: seq<Event>)
    requires AtRest(cfg, s0) && p0 < |data| && At(cfg, s0, data, p0, rest, marks0, events0) && CountsFit(cfg, data)
    requires rest.state == HeaderValue && s1 == Count(rest) && s1.nread <= cfg.maxHeaderSize
    ensures p <= |data| && Agrees(cfg, s0, data, progress, p, s, marks, events)
    ensures progress.Going? ==> p > p0
  {
    hide Run, CountedByte, Join, FlushAll, Inv, Looking, Matches, ReadTo, ValueByte, ValueState;
    ScansHeader(rest);
    var h, stop;
    ghost var clean, cleanScan;
    p, h, stop, clean, cleanScan := ScanValue(cfg, data, p0, ScanOf(s1));
    marks, events := marks0, events0;
    ValueBytesRun(cfg, s0, data, p0, clean, rest, cleanScan, marks, events);
    if clean < p && rest.nread + (clean - p0) <= cfg.maxHeaderSize {
      OverLimit(cfg, s0, data, clean);
    }
    if stop.AtBadByte? {
      if clean == p && rest.nread + (p - p0) <= cfg.maxHeaderSize {
        BadByteRun(cfg, s0, data, p, h, stop.errno);
      }
      progress, s := Errored, WithScan(s1, h).(errno := stop.errno);
      return;
    }
    var within;
    within, s := CountHeaderSize(cfg, WithScan(s1, h), if p == |data| then p - 1 - p0 else p - p0);
    if !within {
      if p < |data| && clean == p && rest.nread + (p - p0) <= cfg.maxHeaderSize {
        OverLimit(cfg, s0, data, p);
      }
      progress := Errored;
    } else if p == |data| {
      progress := Going;
    } else {
      progress, p, s, marks, events := OneByteRound(cfg, s0, data, p, s, marks, events);
    }
  }

  /** The run of the byte machine over the bytes of a header value. */
  lemma ValueBytesRun(cfg: Settings, s0: Parser, data: Bytes, p: nat, q: nat, rest: Parser, h: Scan, marks: Marks,
                      events: seq<Event>)
    requires AtRest(cfg, s0) && p <= q <= |data| && p < |data| && At(cfg, s0, data, p, rest, marks, events)
    requires rest.state == HeaderValue && ReadsValue(ScanOf(rest)) && ReadTo(ScanOf(rest), data, p, q, h)
    ensures var n := rest.nread + (q - p);
            if n > cfg.maxHeaderSize then Run(cfg, s0, data).Failed? && Run(cfg, s0, data).errno == HeaderOverflow
            else
              var s := WithScan(rest, h).(nread := n);
              var r := Run(cfg, s0, data[..q]);
              && r.Running? && r.parser == s
              && (q > p ==> At(cfg, s0, data, q, s, marks, events))
              && (q < |data| ==> Looking(data, q, HeaderValue, marks, events, r.events))
  {
    hide StepByte, Inv, Join, FlushAll, ValueAll;
    var r := Run(cfg, s0, data[..p]);
    RunTo(cfg, s0, data, p, q);
    RunValue(cfg, rest, data[p..q]);
    if rest.nread + (q - p) > cfg.maxHeaderSize {
      RunStopped(cfg, s0, data, q);
    } else {
      GlueAt(cfg, s0, data, p, rest, marks, events);
      if q > p {
        GlueSpan(data, p, q, marks, HeaderValueData, events, r.events);
        if q < |data| {
          GlueHead(data, marks, q, events, Some(HeaderValueData), Run(cfg, s0, data[..q]).events);
        }
      } else {
        assert data[p..q] == [];
        assert r.events + [] == r.events;
      }
    }
  }

  /** A byte of a header value that is refused. */
  lemma BadByteRun(cfg: Settings, s0: Parser, data: Bytes, p: nat, h: Scan, e: Errno)
    requires AtRest(cfg, s0) && p < |data| && Run(cfg, s0, data[..p]).Running?
    requires var s := Run(cfg, s0, data[..p]).parser; s.state == HeaderValue && ScanOf(s) == h
    requires ReadsValue(h) && data[p] != CR && data[p] != LF && ValueByte(h, data[p]) == Bad(e)
    ensures var r := Run(cfg, s0, data); r == Failed(HeaderOverflow, p) || r == Failed(e, p)
  {
    hide StepByte, Inv, ValueByte;
    RunByte(cfg, s0, data, p);
    ValueStep(cfg, Run(cfg, s0, data[..p]).parser, data[p]);
    RunStopped(cfg, s0, data, p + 1);
  }

  // ----- bodies

  /** Set the body mark at data[p], unless it is set. */
  function MarkBody(marks: Marks, p: nat): Marks { if BodyData in marks then marks else marks[BodyData := p] }

  lemma OpenBody(cfg: Settings, s0: Parser, data: Bytes, p: nat, s: Parser, marks: Marks, events: seq<Event>)
    requires AtRest(cfg, s0) && p < |data| && At(cfg, s0, data, p, s, marks, events)
    requires OpenAt(s.state) == None && BodyMayBeOpen(s.state)
    ensures MarksAre(MarkBody(marks, p), Some(BodyData), p)
    ensures Glued(data, MarkBody(marks, p), p, events, Some(BodyData), Run(cfg, s0, data[..p]).events)
  {
    hide StepByte, Inv, Join;
    var marks', simple := MarkBody(marks, p), Run(cfg, s0, data[..p]).events;
    assert BodyData in marks <==> BodyData in marks.Keys;
    if MarksAre(marks, Some(BodyData), p) {
      if p == 0 {
        FlushOne(data, marks, Some(BodyData), p);
      } else {
        GlueHead(data, marks, p, events, Some(BodyData), simple);
      }
    } else {
      FlushOne(data, marks, None, p);
      FlushOne(data, marks', Some(BodyData), p);
      assert data[p..p] == [] && events + [] == events;
      assert Join(events) == Join(simple);
      JoinSameTail(events, simple, [Data(BodyData, [])]);
    }
  }

  /** The run of the byte machine over the body bytes data[p..q], all of one span. */
  lemma BodyBytesRun(cfg: Settings, s0: Parser, data: Bytes, p: nat, q: nat, rest: Parser, marks: Marks,
                     events: seq<Event>)
    requires AtRest(cfg, s0) && p < q <= |data| && At(cfg, s0, data, p, rest, marks, events)
    requires OpenAt(rest.state) == None && BodyMayBeOpen(rest.state)
    requires var r := Run(cfg, rest, data[p..q]);
             r.Running? && BodyMayBeOpen(r.parser.state) && r.events == Singles(BodyData, data[p..q])
    ensures At(cfg, s0, data, q, Run(cfg, rest, data[p..q]).parser, MarkBody(marks, p), events)
  {
    hide StepByte, Inv, Join, FlushAll;
    OpenBody(cfg, s0, data, p, rest, marks, events);
    RunTo(cfg, s0, data, p, q);
    GlueSpan(data, p, q, MarkBody(marks, p), BodyData, events, Run(cfg, s0, data[..p]).events);
  }

  /** A body of known length. */
  method IdentityRound(cfg: Settings, ghost s0: Parser, data: Bytes, p0: nat, s1: Parser, marks0: Marks,
                       events0: seq<Event>)
    returns (progress: Progress, p: nat, s: Parser, marks: Marks, events: seq<Event>)
    requires AtRest(cfg, s0) && p0 < |data| && At(cfg, s0, data, p0, s1, marks0, events0)
    requires s1.state == BodyIdentity
    ensures p <= |data| && Agrees(cfg, s0, data, progress, p, s, marks, events)
    ensures progress.Going? ==> p > p0
  {
    hide Run, CountedByte, Join, FlushAll, Inv, Looking, Matches, Singles, Glued;
    ScansHeader(s1);
    var toRead := if s1.contentLength < |data| - p0 then s1.contentLength else |data| - p0;
    marks, events := MarkBody(marks0, p0), events0;
    s, p := s1.(contentLength := s1.contentLength - toRead), p0 + toRead - 1;
    if s.contentLength == 0 {
      OpenBody(cfg, s0, data, p0, s1, marks0, events0);
      progress, p, s, marks, events := IdentityEnd(cfg, s0, data, p, s, marks, events, p0, s1);
    } else {
      p := p + 1;
      RunIdentity(cfg, s1, data[p0..p]);
      BodyBytesRun(cfg, s0, data, p0, p, s1, marks0, events0);
      progress := Going;
    }
  }

  /** The last byte of a body of known length, data[q]: report the span, then look at the
      byte again with the message done. */
  method IdentityEnd(cfg: Settings, ghost s0: Parser, data: Bytes, q: nat, s1: Parser, marks0: Marks,
                     events0: seq<Event>, ghost p0: nat, ghost rest: Parser)
    returns (progress: Progress, p: nat, s: Parser, marks: Marks, events: seq<Event>)
    requires AtRest(cfg, s0) && p0 <= q < |data|
    requires var r := Run(cfg, s0, data[..p0]);
             && r.Running? && r.parser == rest
             && MarksAre(marks0, Some(BodyData), p0) && Glued(data, marks0, p0, events0, Some(BodyData), r.events)
    requires rest.state == BodyIdentity && rest.contentLength == q + 1 - p0 && s1 == rest.(contentLength := 0)
    ensures p <= |data| && Agrees(cfg, s0, data, progress, p, s, marks, events)
    ensures progress.Going? ==> p > q
  {
    hide Run, CountedByte, Join, FlushAll, Inv, Looking, Matches, Singles, Glued;
    IdentityLastRun(cfg, s0, data, p0, q, rest);
    ghost var simple := LastTrace(cfg, s0, data, q);
    IdentityLastGlue(cfg, s0, data, p0, q, marks0, events0, Run(cfg, s0, data[..p0]).events, simple);
    events := events0 + [Data(BodyData, data[marks0[BodyData]..q + 1])];
    progress, s, marks, events :=
      Reexecute(cfg, data, q, s1.(state := MessageDone), marks0 - {BodyData}, events, simple);
    p := if progress.Errored? then q else q + 1;
  }

  lemma IdentityLast(cfg: Settings, s: Parser, ch: Byte)
    requires Inv(s) && s.nread <= cfg.maxHeaderSize && s.state == BodyIdentity && s.contentLength == 1
    ensures Inv(s.(contentLength := 0, state := MessageDone))
    ensures CountedByte(cfg, s, ch) ==
            CountedByte(cfg, s.(contentLength := 0, state := MessageDone), ch).After([Data(BodyData, [ch])], 0)
  {
    hide Inv, Once, CountedByte;
    var s' := s.(contentLength := 0, state := MessageDone);
    LastOnce(cfg, s, ch);
    CountedAgain(cfg, s, ch, s', MarkAndFlushThrough(BodyData));
  }

  lemma SinglesSnoc(kind: DataKind, data: Bytes, p: nat, q: nat)
    requires p <= q < |data|
    ensures Singles(kind, data[p..q + 1]) == Singles(kind, data[p..q]) + [Data(kind, [data[q]])]
  {
    assert data[p..q + 1][..q - p] == data[p..q];
  }

  /** The trace of the byte machine when the last body byte is data[q]. */
  ghost function LastTrace(cfg: Settings, s0: Parser, data: Bytes, q: nat): seq<Event>
    requires AtRest(cfg, s0) && q < |data| && Run(cfg, s0, data[..q]).Running?
  {
    Run(cfg, s0, data[..q]).events + [Data(BodyData, [data[q]])]
  }

  /** The bytes before the last one of a body of known length. */
  lemma BeforeLastRun(cfg: Settings, s0: Parser, data: Bytes, p: nat, q: nat, rest: Parser)
    requires AtRest(cfg, s0) && p <= q < |data|
    requires var r := Run(cfg, s0, data[..p]); r.Running? && r.parser == rest
    requires rest.state == BodyIdentity && rest.contentLength == q + 1 - p
    ensures Run(cfg, s0, data[..q]) ==
            Running(rest.(contentLength := 1), Run(cfg, s0, data[..p]).events + Singles(BodyData, data[p..q]))
  {
    hide AtRest, Run, Singles, StepByte;
    RunIdentity(cfg, rest, data[p..q]);
    RunTo(cfg, s0, data, p, q);
  }

  /** What the byte machine does with the last byte of a body, as the run over the input sees it. */
  ghost predicate LastRun(cfg: Settings, s0: Parser, data: Bytes, q: nat, s: Parser)
    requires AtRest(cfg, s0) && q < |data| && Run(cfg, s0, data[..q]).Running? && Inv(s) && s.nread <= cfg.maxHeaderSize
  {
    var simple := LastTrace(cfg, s0, data, q);
    var b := CountedByte(cfg, s, data[q]);
    && (b.Running? ==> Run(cfg, s0, data[..q + 1]) == Running(b.parser, simple + b.events))
    && (b.Left? ==> Run(cfg, s0, data) == Left(b.parser, simple + b.events, q + 1))
    && (b.Failed? ==> Run(cfg, s0, data) == Failed(b.errno, q))
  }

  lemma LastByteRun(cfg: Settings, s0: Parser, data: Bytes, q: nat, s2: Parser)
    requires AtRest(cfg, s0) && q < |data| && s2.state == BodyIdentity && s2.contentLength == 1
    requires var r := Run(cfg, s0, data[..q]); r.Running? && r.parser == s2
    ensures var s := s2.(contentLength := 0, state := MessageDone);
            Inv(s) && s.nread <= cfg.maxHeaderSize && LastRun(cfg, s0, data, q, s)
  {
    hide AtRest, CountedByte, Run, Inv, StepByte;
    InLimit(cfg, s2);
    IdentityLast(cfg, s2, data[q]);
    OneByte(cfg, s0, data, q);
    var r := CountedByte(cfg, s2.(contentLength := 0, state := MessageDone), data[q]);
    if !r.Failed? {
      assert Run(cfg, s0, data[..q]).events + ([Data(BodyData, [data[q]])] + r.events) ==
             LastTrace(cfg, s0, data, q) + r.events;
    }
  }

  /** The last byte of a body of known length: the run of the byte machine. */
  lemma IdentityLastRun(cfg: Settings, s0: Parser, data: Bytes, p: nat, q: nat, rest: Parser)
    requires AtRest(cfg, s0) && p <= q < |data|
    requires var r := Run(cfg, s0, data[..p]); r.Running? && r.parser == rest
    requires rest.state == BodyIdentity && rest.contentLength == q + 1 - p
    ensures var s := rest.(contentLength := 0, state := MessageDone);
            && Inv(s) && s.nread <= cfg.maxHeaderSize
            && Run(cfg, s0, data[..q]).Running?
            && Run(cfg, s0, data[..q]).events ==
               Run(cfg, s0, data[..p]).events + Singles(BodyData, data[p..q])
            && LastRun(cfg, s0, data, q, s)
  {
    hide AtRest, Run, Inv, Singles, LastRun, StepByte;
    BeforeLastRun(cfg, s0, data, p, q, rest);
    LastByteRun(cfg, s0, data, q, rest.(contentLength := 1));
  }

  lemma NothingOpen(data: Bytes, p: nat, events: seq<Event>, simple: seq<Event>)
    requires p <= |data| && Join(events) == Join(simple)
    ensures Looking(data, p, MessageDone, map[], events, simple)
  {
    hide Join, FlushAll;
    FlushOne(data, map[], None, p);
    assert events + [] == events && simple + [] == simple;
  }

  /** ... and the span the parser reports. */
  lemma IdentityLastGlue(cfg: Settings, s0: Parser, data: Bytes, p: nat, q: nat, marks: Marks, events: seq<Event>,
                         before: seq<Event>, simple: seq<Event>)
    requires p <= q < |data| && MarksAre(marks, Some(BodyData), p)
    requires Glued(data, marks, p, events, Some(BodyData), before)
    requires simple == before + Singles(BodyData, data[p..q]) + [Data(BodyData, [data[q]])]
    ensures Looking(data, q, MessageDone, marks - {BodyData},
                    events + [Data(BodyData, data[marks[BodyData]..q + 1])], simple)
  {
    hide Join, Singles, Glued, FlushAll, Looking;
    GlueSpan(data, p, q + 1, marks, BodyData, events, before);
    FlushOne(data, marks, Some(BodyData), q + 1);
    SinglesSnoc(BodyData, data, p, q);
    Regroup(before, Singles(BodyData, data[p..q]), Data(BodyData, [data[q]]));
    assert marks - {BodyData} == map[];
    NothingOpen(data, q, events + [Data(BodyData, data[marks[BodyData]..q + 1])], simple);
  }

  /** A body that ends with the connection. */
  method IdentityEofRound(cfg: Settings, ghost s0: Parser, data: Bytes, p0: nat, s1: Parser, marks0: Marks,
                          events0: seq<Event>)
    returns (progress: Progress, p: nat, s: Parser, marks: Marks, events: seq<Event>)
    requires AtRest(cfg, s0) && p0 < |data| && At(cfg, s0, data, p0, s1, marks0, events0)
    requires s1.state == BodyIdentityEof
    ensures p <= |data| && Agrees(cfg, s0, data, progress, p, s, marks, events)
    ensures progress.Going? ==> p > p0
  {
    hide Run, Join, FlushAll, Inv, Matches;
    progress, s, marks, events := Going, s1, MarkBody(marks0, p0), events0;
    p := |data| - 1;
    p := p + 1;
    RunIdentityEof(cfg, s1, data[p0..p]);
    BodyBytesRun(cfg, s0, data, p0, p, s1, marks0, events0);
  }

  /** The data of a chunk. */
  method ChunkDataRound(cfg: Settings, ghost s0: Parser, data: Bytes, p0: nat, s1: Parser, marks0: Marks,
                        events0: seq<Event>)
    returns (progress: Progress, p: nat, s: Parser, marks: Marks, events: seq<Event>)
    requires AtRest(cfg, s0) && p0 < |data| && At(cfg, s0, data, p0, s1, marks0, events0)
    requires s1.state == ChunkData
    ensures p <= |data| && Agrees(cfg, s0, data, progress, p, s, marks, events)
    ensures progress.Going? ==> p > p0
  {
    hide Run, Join, FlushAll, Inv, Matches;
    ScansHeader(s1);
    var toRead := if s1.contentLength < |data| - p0 then s1.contentLength else |data| - p0;
    progress, marks, events := Going, MarkBody(marks0, p0), events0;
    s, p := s1.(contentLength := s1.contentLength - toRead), p0 + toRead - 1;
    if s.contentLength == 0 {
      s := s.(state := ChunkDataAlmostDone);
    }
    p := p + 1;
    RunChunkData(cfg, s1, data[p0..p]);
    BodyBytesRun(cfg, s0, data, p0, p, s1, marks0, events0);
  }

  // ----- the call

  lemma AtStart(cfg: Settings, s: Parser, data: Bytes)
    requires AtRest(cfg, s)
    ensures At(cfg, s, data, 0, s, InitialMarks(s.state), [])
  {
    hide Inv;
  }

  /** In a state other than those that take many bytes, data[p] is looked at with the marks as they are. */
  lemma LookAt(cfg: Settings, s0: Parser, data: Bytes, p: nat, s: Parser, marks: Marks, events: seq<Event>)
    requires AtRest(cfg, s0) && p < |data| && At(cfg, s0, data, p, s, marks, events)
    requires s.state != BodyIdentity && s.state != BodyIdentityEof && s.state != ChunkData
    ensures Looking(data, p, s.state, marks, events, Run(cfg, s0, data[..p]).events)
  {
    hide StepByte, Inv, Join, FlushAll;
    if MarksAre(marks, OpenAt(s.state), p) {
      GlueAt(cfg, s0, data, p, s, marks, events);
    } else {
      assert BodyData in marks.Keys;
    }
  }

  /** The end of the input: the spans still open are reported. */
  lemma AtEndOfInput(cfg: Settings, s0: Parser, data: Bytes, s: Parser, marks: Marks, events: seq<Event>)
    requires AtRest(cfg, s0) && data != [] && At(cfg, s0, data, |data|, s, marks, events)
    ensures var r := Run(cfg, s0, data);
            r.Running? && r.parser == s && Join(events + FlushAll(data, marks, |data|)) == Join(r.events)
    ensures forall k, k' :: k in marks && k' in marks ==> k == k'
  {
    hide StepByte, Inv, Join, FlushAll;
    assert data[..|data|] == data;
    assert forall k :: k in marks <==> k in marks.Keys;
  }

  class HttpParser {
    var s: Parser

    constructor (kind: ParserType)
      ensures s == InitParser(kind)
    {
      s := InitParser(kind);
    }

    /** One call. The trace holds the callbacks, in order. */
    method Execute(cfg: Settings, data: Bytes) returns (n: nat, events: seq<Event>)
      requires CountsFit(cfg, data)
      requires s.errno == Ok ==> AtRest(cfg, s)
      modifies this
      ensures old(s).errno != Ok ==> n == 0 && s == old(s) && events == []
      ensures old(s).errno == Ok && data != [] ==>
        var r := Run(cfg, old(s), data);
        && (r.Running? ==> n == |data| && s == r.parser && Join(events) == Join(r.events))
        && (r.Left? ==> n == r.consumed && s == r.parser && Join(events) == Join(r.events))
        && (r.Failed? ==>
              && s.errno != Ok && n <= |data|
              && (r.errno == HeaderOverflow || (s.errno == r.errno && n == r.consumed)))
      ensures old(s).errno == Ok && data == [] ==>
        if old(s).state == BodyIdentityEof then n == 0 && s == old(s) && events == [MessageComplete]
        else if old(s).state in {StartReqOrRes, StartRes, StartReq} then n == 0 && s == old(s) && events == []
        else n == 1 && s == old(s).(errno := InvalidEofState) && events == []
    {
      n, events := 0, [];
      if s.errno != Ok {
        return;
      }
      if data == [] {
        if s.state == BodyIdentityEof {
          events := [MessageComplete];
        } else if !(s.state == Dead || s.state == StartReqOrRes || s.state == StartRes || s.state == StartReq) {
          s := s.(errno := InvalidEofState);
          n := 1;
        }
        return;
      }
      ghost var s0 := s;
      var marks := InitialMarks(s.state);
      var p := 0;
      AtStart(cfg, s0, data);
      while p < |data|
        invariant p <= |data| && At(cfg, s0, data, p, s, marks, events)
      {
        var progress;
        progress, p, s, marks, events := Round(cfg, s0, data, p, s, marks, events);
        if !progress.Going? {
          n := p;
          return;
        }
      }
      AtEndOfInput(cfg, s0, data, s, marks, events);
      events := events + FlushAll(data, marks, p);
      n := |data|;
    }
  }

  /** One round of the loop over the input: count a header byte, then switch on the state. */
  method Round(cfg: Settings, ghost s0: Parser, data: Bytes, p0: nat, rest: Parser, marks0: Marks,
               events0: seq<Event>)
    returns (progress: Progress, p: nat, s: Parser, marks: Marks, events: seq<Event>)
    requires AtRest(cfg, s0) && p0 < |data| && At(cfg, s0, data, p0, rest, marks0, events0) && CountsFit(cfg, data)
    ensures p <= |data| && Agrees(cfg, s0, data, progress, p, s, marks, events)
    ensures progress.Going? ==> p > p0
  {
    hide Run, CountedByte, Join, FlushAll, Inv, Looking, Matches;
    s, p, marks, events := rest, p0, marks0, events0;
    if s.state.ParsingHeader() {
      var within;
      within, s := CountHeaderSize(cfg, s, 1);
      if !within {
        OverLimit(cfg, s0, data, p);
        progress := Errored;
        return;
      }
    }
    if s.state == HeaderField {
      progress, p, s, marks, events := FieldRound(cfg, s0, data, p, s, marks, events, rest);
    } else if s.state == HeaderValue {
      progress, p, s, marks, events := ValueRound(cfg, s0, data, p, s, marks, events, rest);
    } else if s.state == BodyIdentity {
      progress, p, s, marks, events := IdentityRound(cfg, s0, data, p, s, marks, events);
    } else if s.state == BodyIdentityEof {
      progress, p, s, marks, events := IdentityEofRound(cfg, s0, data, p, s, marks, events);
    } else if s.state == ChunkData {
      progress, p, s, marks, events := ChunkDataRound(cfg, s0, data, p, s, marks, events);
    } else {
      LookAt(cfg, s0, data, p, rest, marks, events);
      progress, p, s, marks, events := OneByteRound(cfg, s0, data, p, s, marks, events);
    }
  }
}
