/** The five states in which the parser takes many bytes at once: what a run of the byte
    machine over such bytes amounts to, and the two scanning loops over header bytes. */
module HttpBatch {
  import opened Wrappers
  import opened HttpTypes
  import opened HttpMachine
  import opened HttpInvariant
  import opened HttpTrace
  import opened HttpRun

  // ----- header names

  predicate AllTokens(bytes: Bytes) { forall i :: 0 <= i < |bytes| ==> Token(bytes[i]) != '\0' }

  /** The bytes of a header name, one after the other. */
  function FieldAll(h: Scan, bytes: Bytes): (r: Scan)
    requires FieldState(h.headerState)
    ensures FieldState(r.headerState) && r.contentLength == h.contentLength
  {
    var n := |bytes|;
    if n == 0 then h else FieldByte(FieldAll(h, bytes[..n - 1]), bytes[n - 1])
  }

  lemma FieldStep(cfg: Settings, s: Parser, ch: Byte)
    requires AtRest(cfg, s) && s.state == HeaderField && Token(ch) != '\0'
    ensures StepByte(cfg, s, ch) ==
              if s.nread + 1 > cfg.maxHeaderSize then Failed(HeaderOverflow, 0)
              else Running(WithScan(s, FieldByte(ScanOf(s), ch)).(nread := s.nread + 1), [Data(HeaderFieldData, [ch])])
  {
    hide Start, ResponseVersion, StatusLine, Method, Url, RequestVersion, Value, EndOfValue, EndHeaders, ChooseBody, Identity, ChunkLine, ChunkBody, FieldByte;
  }

  /** A run over name bytes, when the header limit is reached and when it is not. */
  lemma {:induction false} RunField(cfg: Settings, s: Parser, bytes: Bytes)
    requires AtRest(cfg, s) && s.state == HeaderField && AllTokens(bytes)
    ensures Run(cfg, s, bytes) ==
              if s.nread + |bytes| > cfg.maxHeaderSize then Failed(HeaderOverflow, cfg.maxHeaderSize - s.nread)
              else Running(WithScan(s, FieldAll(ScanOf(s), bytes)).(nread := s.nread + |bytes|),
                           Singles(HeaderFieldData, bytes))
    decreases |bytes|
  {
    hide StepByte, FieldByte, FieldState;
    var n := |bytes|;
    if n > 0 {
      var init, ch := bytes[..n - 1], bytes[n - 1];
      RunField(cfg, s, init);
      if s.nread + n - 1 <= cfg.maxHeaderSize {
        FieldStep(cfg, Run(cfg, s, init).parser, ch);
      }
    }
  }

  lemma FieldGeneral(h: Scan, ch: Byte)
    requires FieldState(h.headerState)
    ensures h.headerState == General ==> FieldByte(h, ch) == h
  {
  }

  lemma FieldSnoc(h: Scan, data: Bytes, start: nat, p: nat)
    requires start <= p < |data| && FieldState(h.headerState)
    requires AllTokens(data[start..p]) && Token(data[p]) != '\0'
    ensures AllTokens(data[start..p + 1])
    ensures FieldAll(h, data[start..p + 1]) == FieldByte(FieldAll(h, data[start..p]), data[p])
    ensures FieldAll(h, data[start..p]).headerState == General ==>
              FieldAll(h, data[start..p + 1]) == FieldAll(h, data[start..p])
  {
    hide FieldByte, Token, FieldState;
    FieldGeneral(FieldAll(h, data[start..p]), data[p]);
    assert data[start..p + 1][..p - start] == data[start..p];
  }

  /** The loop over a header name, from data[start] to the first byte that is not a token. */
  method ScanField(cfg: Settings, data: Bytes, start: nat, h0: Scan) returns (p: nat, h: Scan)
    requires start < |data| && FieldState(h0.headerState) && cfg.maxHeaderSize > 0
    ensures start <= p <= |data|
    ensures AllTokens(data[start..p]) && (p < |data| ==> Token(data[p]) == '\0')
    ensures h == FieldAll(h0, data[start..p])
  {
    hide FieldAll, FieldByte, FieldState, AllTokens, Token;
    p, h := start, h0;
    assert AllTokens(data[start..p]) && h == FieldAll(h0, data[start..p]) by {
      FieldNone(h0, data[start..p]);
    }
    while p < |data|
      invariant start <= p <= |data|
      invariant AllTokens(data[start..p])
      invariant h == FieldAll(h0, data[start..p])
    {
      var ch := data[p];
      if Token(ch) == '\0' {
        break;
      }
      FieldSnoc(h0, data, start, p);
      if h.headerState == General {
        var left := |data| - p;
        var pe := p + if left < cfg.maxHeaderSize then left else cfg.maxHeaderSize;
        while p + 1 < pe && Token(data[p + 1]) != '\0'
          invariant start <= p < pe <= |data|
          invariant AllTokens(data[start..p + 1])
          invariant h == FieldAll(h0, data[start..p + 1]) && h.headerState == General
        {
          FieldSnoc(h0, data, start, p + 1);
          p := p + 1;
        }
      } else {
        h := FieldByte(h, ch);
      }
      p := p + 1;
    }
  }

  lemma FieldNone(h: Scan, bytes: Bytes)
    requires bytes == [] && FieldState(h.headerState)
    ensures AllTokens(bytes) && FieldAll(h, bytes) == h
  {
  }

  // ----- header values

  predicate NoBreaks(bytes: Bytes) { forall i :: 0 <= i < |bytes| ==> bytes[i] != CR && bytes[i] != LF }

  predicate ReadsValue(h: Scan) {
    ValueState(h.headerState) && (h.headerState.ContentLengthNum? ==> h.contentLength < ULLONG_MAX)
  }

  /** The bytes of a header value, one after the other, up to the first that is refused. */
  function ValueAll(h: Scan, bytes: Bytes): (r: ValueResult)
    requires ReadsValue(h)
    ensures r.Good? ==> ReadsValue(r.scan)
    ensures r.Bad? ==> r.errno != Ok
  {
    var n := |bytes|;
    if n == 0 then Good(h)
    else
      match ValueAll(h, bytes[..n - 1])
      case Good(h') => ValueByte(h', bytes[n - 1])
      case bad => bad
  }

  lemma ValueStep(cfg: Settings, s: Parser, ch: Byte)
    requires AtRest(cfg, s) && s.state == HeaderValue && ch != CR && ch != LF
    ensures StepByte(cfg, s, ch) ==
              if s.nread + 1 > cfg.maxHeaderSize then Failed(HeaderOverflow, 0)
              else match ValueByte(ScanOf(s), ch)
                case Good(h) => Running(WithScan(s, h).(nread := s.nread + 1), [Data(HeaderValueData, [ch])])
                case Bad(e) => Failed(e, 0)
  {
    hide Start, ResponseVersion, StatusLine, Method, Url, RequestVersion, Field, EndOfValue, EndHeaders, ChooseBody, Identity, ChunkLine, ChunkBody, ValueByte;
  }

  lemma {:induction false} RunValue(cfg: Settings, s: Parser, bytes: Bytes)
    requires AtRest(cfg, s) && s.state == HeaderValue && NoBreaks(bytes) && ValueAll(ScanOf(s), bytes).Good?
    ensures Run(cfg, s, bytes) ==
              if s.nread + |bytes| > cfg.maxHeaderSize then Failed(HeaderOverflow, cfg.maxHeaderSize - s.nread)
              else Running(WithScan(s, ValueAll(ScanOf(s), bytes).scan).(nread := s.nread + |bytes|),
                           Singles(HeaderValueData, bytes))
    decreases |bytes|
  {
    hide StepByte, ValueByte, ValueState;
    var n := |bytes|;
    if n > 0 {
      var init, ch := bytes[..n - 1], bytes[n - 1];
      RunValue(cfg, s, init);
      if s.nread + n - 1 <= cfg.maxHeaderSize {
        ValueStep(cfg, Run(cfg, s, init).parser, ch);
      }
    }
  }

  /** data[start..p] has been read as part of a header value, and left the scan at `h`. */
  ghost predicate ReadTo(h0: Scan, data: Bytes, start: nat, p: nat, h: Scan)
    requires start <= p <= |data| && ReadsValue(h0)
  {
    NoBreaks(data[start..p]) && ValueAll(h0, data[start..p]) == Good(h)
  }

  lemma ReadNone(h: Scan, data: Bytes, start: nat)
    requires start <= |data| && ReadsValue(h)
    ensures ReadTo(h, data, start, start, h)
  {
  }

  lemma ReadSnoc(h0: Scan, data: Bytes, start: nat, p: nat, h: Scan)
    requires start <= p < |data| && ReadsValue(h0) && ReadTo(h0, data, start, p, h)
    ensures ReadsValue(h)
    ensures data[p] != CR && data[p] != LF && ValueByte(h, data[p]).Good? ==>
              ReadTo(h0, data, start, p + 1, ValueByte(h, data[p]).scan) && ReadsValue(ValueByte(h, data[p]).scan)
    ensures h.headerState == General ==>
              ValueByte(h, data[p]) == if IsHeaderChar(data[p]) then Good(h) else Bad(InvalidHeaderToken)
  {
    assert data[start..p + 1][..p - start] == data[start..p];
  }

  /** Why the loop over a header value stops. */
  datatype ScanStop = AtBreak | AtEnd | AtBadByte(errno: Errno)

  /** The loop over a header value, from data[start] to the first CR or LF. The fast skip
      looks at no more than maxHeaderSize bytes; if the line goes on past them, the next
      byte is passed over unseen. `clean` is how far the bytes were all looked at; when a
      byte was passed over, that is already the whole header limit. */
  method ScanValue(cfg: Settings, data: Bytes, start: nat, h0: Scan)
    returns (p: nat, h: Scan, stop: ScanStop, ghost clean: nat, ghost cleanScan: Scan)
    requires start < |data| && ReadsValue(h0) && cfg.maxHeaderSize > 0
    ensures start <= clean <= p <= |data| && ReadTo(h0, data, start, clean, cleanScan)
    ensures clean < p ==> clean - start >= cfg.maxHeaderSize
    ensures stop.AtEnd? <==> p == |data|
    ensures stop.AtBreak? ==> data[p] == CR || data[p] == LF
    ensures clean == p ==> h == cleanScan
    ensures clean == p && stop.AtBadByte? ==>
              ReadsValue(h) && data[p] != CR && data[p] != LF && ValueByte(h, data[p]) == Bad(stop.errno)
    ensures stop.AtBadByte? ==> stop.errno != Ok
  {
    hide ValueAll, ValueByte, ValueState, ReadTo, IsHeaderChar;
    p, h := start, h0;
    clean, cleanScan := start, h0;
    ReadNone(h0, data, start);
    while p < |data|
      invariant start <= clean <= p <= |data|
      invariant ReadsValue(h) && ReadTo(h0, data, start, clean, cleanScan)
      invariant clean < p ==> clean - start >= cfg.maxHeaderSize
      invariant clean == p ==> h == cleanScan
    {
      var ch := data[p];
      if ch == CR || ch == LF {
        stop := AtBreak;
        return;
      }
      if clean < |data| {
        ReadSnoc(h0, data, start, clean, cleanScan);
      }
      if h.headerState == General && IsHeaderChar(ch) {
        var pe := p + if |data| - p < cfg.maxHeaderSize then |data| - p else cfg.maxHeaderSize;
        ghost var first := p;
        var found := false;
        while p != pe
          invariant first <= p <= pe <= |data| && start <= clean <= p
          invariant ReadTo(h0, data, start, clean, cleanScan)
          invariant clean < p ==> clean - start >= cfg.maxHeaderSize
          invariant clean == p ==> h == cleanScan
          invariant clean == p || clean - start >= cfg.maxHeaderSize
          decreases pe - p
        {
          ch := data[p];
          if ch == CR || ch == LF {
            found := true;
            break;
          }
          if clean < |data| {
            ReadSnoc(h0, data, start, clean, cleanScan);
          }
          if !IsHeaderChar(ch) {
            stop := AtBadByte(InvalidHeaderToken);
            return;
          }
          if clean == p {
            clean := clean + 1;
          }
          p := p + 1;
        }
        if !found && p < |data| {
          p := p + 1;  // the step of the outer loop, over a byte that was not looked at
        }
      } else {
        match ValueByte(h, ch)
        case Bad(e) =>
          stop := AtBadByte(e);
          return;
        case Good(h') =>
          if clean == p {
            clean, cleanScan := clean + 1, h';
          }
          h := h';
          p := p + 1;
      }
    }
    stop := AtEnd;
  }

  // ----- bodies

  lemma IdentityStep(cfg: Settings, s: Parser, ch: Byte)
    requires AtRest(cfg, s) && s.state == BodyIdentity && 1 < s.contentLength
    ensures StepByte(cfg, s, ch) == Running(s.(contentLength := s.contentLength - 1), [Data(BodyData, [ch])])
  {
    hide Start, ResponseVersion, StatusLine, Method, Url, RequestVersion, Field, Value, EndOfValue, EndHeaders, ChooseBody, ChunkLine, ChunkBody;
  }

  /** Fewer body bytes than the length still to come. */
  lemma {:induction false} RunIdentity(cfg: Settings, s: Parser, bytes: Bytes)
    requires AtRest(cfg, s) && s.state == BodyIdentity && |bytes| < s.contentLength
    ensures Run(cfg, s, bytes) ==
              Running(s.(contentLength := s.contentLength - |bytes|), Singles(BodyData, bytes))
    decreases |bytes|
  {
    hide StepByte;
    var n := |bytes|;
    if n > 0 {
      RunIdentity(cfg, s, bytes[..n - 1]);
      IdentityStep(cfg, Run(cfg, s, bytes[..n - 1]).parser, bytes[n - 1]);
    }
  }

  lemma LastOnce(cfg: Settings, s: Parser, ch: Byte)
    requires Inv(s) && s.state == BodyIdentity && s.contentLength == 1
    ensures Once(cfg, s, ch) == Again(s.(contentLength := 0, state := MessageDone), MarkAndFlushThrough(BodyData))
  {
    hide Start, ResponseVersion, StatusLine, Method, Url, RequestVersion, Field, Value, EndOfValue, EndHeaders,
      ChooseBody, ChunkLine, ChunkBody, FieldState, ValueState, MethodName;
  }

  lemma IdentityEofStep(cfg: Settings, s: Parser, ch: Byte)
    requires AtRest(cfg, s) && s.state == BodyIdentityEof
    ensures StepByte(cfg, s, ch) == Running(s, [Data(BodyData, [ch])])
  {
    hide Start, ResponseVersion, StatusLine, Method, Url, RequestVersion, Field, Value, EndOfValue, EndHeaders, ChooseBody, ChunkLine, ChunkBody;
  }

  lemma {:induction false} RunIdentityEof(cfg: Settings, s: Parser, bytes: Bytes)
    requires AtRest(cfg, s) && s.state == BodyIdentityEof
    ensures Run(cfg, s, bytes) == Running(s, Singles(BodyData, bytes))
    decreases |bytes|
  {
    hide StepByte;
    var n := |bytes|;
    if n > 0 {
      RunIdentityEof(cfg, s, bytes[..n - 1]);
      IdentityEofStep(cfg, s, bytes[n - 1]);
    }
  }

  lemma ChunkDataStep(cfg: Settings, s: Parser, ch: Byte)
    requires AtRest(cfg, s) && s.state == ChunkData
    ensures StepByte(cfg, s, ch) ==
              Running(s.(contentLength := s.contentLength - 1,
                         state := if s.contentLength == 1 then ChunkDataAlmostDone else ChunkData),
                      [Data(BodyData, [ch])])
  {
    hide Start, ResponseVersion, StatusLine, Method, Url, RequestVersion, Field, Value, EndOfValue, EndHeaders, ChooseBody, Identity, ChunkLine;
  }

  lemma {:induction false} RunChunkData(cfg: Settings, s: Parser, bytes: Bytes)
    requires AtRest(cfg, s) && s.state == ChunkData && |bytes| <= s.contentLength
    ensures Run(cfg, s, bytes) ==
              Running(s.(contentLength := s.contentLength - |bytes|,
                         state := if |bytes| == s.contentLength then ChunkDataAlmostDone else ChunkData),
                      Singles(BodyData, bytes))
    decreases |bytes|
  {
    hide StepByte;
    var n := |bytes|;
    if n > 0 {
      RunChunkData(cfg, s, bytes[..n - 1]);
      ChunkDataStep(cfg, Run(cfg, s, bytes[..n - 1]).parser, bytes[n - 1]);
    }
  }
}
