/** Header names: which of them the parser acts on. It keeps one substate and an index into one
    candidate name; that is enough to tell the names apart, whatever the case of their letters. */
module HttpHeaderNames {
  import opened HttpTypes
  import opened HttpMachine
  import opened HttpInvariant
  import opened HttpTrace
  import opened HttpRun
  import opened HttpBatch

  const KNOWN: nat := 5

  /** The names the parser looks for, the substate while one of them is being matched, and the
      substate when it is all there. */
  function Known(k: nat): string
    requires k < KNOWN
  {
    match k
    case 0 => "connection" case 1 => "proxy-connection" case 2 => "content-length" case 3 => "transfer-encoding"
    case _ => "upgrade"
  }

  function MatchingState(k: nat): HeaderState
    requires k < KNOWN
  {
    match k
    case 0 => MatchingConnection case 1 => MatchingProxyConnection case 2 => MatchingContentLength
    case 3 => MatchingTransferEncoding case _ => MatchingUpgrade
  }

  function MatchedState(k: nat): HeaderState
    requires k < KNOWN
  {
    match k
    case 0 => Connection case 1 => Connection case 2 => ContentLength case 3 => TransferEncoding case _ => Upgrade
  }

  /** The substate after n letters that fit the k-th name: two names begin with "con". */
  function Stage(k: nat, n: nat): HeaderState
    requires k < KNOWN
  {
    if k == 0 || k == 2 then
      if n == 1 then C else if n == 2 then CO else if n == 3 then CON else MatchingState(k)
    else MatchingState(k)
  }

  /** `name` begins as `word` does, up to the case of the letters. */
  predicate Fits(name: Bytes, word: string) {
    |name| <= |word| && forall i :: 0 <= i < |name| ==> Token(name[i]) == word[i]
  }

  /** `name` is `word`, up to the case of the letters; spaces may follow it. */
  predicate Names(name: Bytes, word: string) {
    |word| <= |name| && Fits(name[..|word|], word) && forall i :: |word| <= i < |name| ==> name[i] == ' '
  }

  /** What the scan knows of the k-th name when `name` has been read. */
  predicate Tracks(name: Bytes, h: Scan, k: nat)
    requires k < KNOWN
  {
    var word := Known(k);
    && (name != [] && |name| < |word| && Fits(name, word) ==> h.headerState == Stage(k, |name|) && h.index == |name| - 1)
    && (h.headerState == MatchingState(k) ==> 0 < |name| < |word| && Fits(name, word) && h.index == |name| - 1)
    && (Names(name, word) ==> h.headerState == MatchedState(k))
  }

  /** The states for the letters two names share. */
  predicate TracksShared(name: Bytes, h: Scan) {
    && (h.headerState == C ==> |name| == 1 && Fits(name, "con"))
    && (h.headerState == CO ==> |name| == 2 && Fits(name, "con"))
    && (h.headerState == CON ==> |name| == 3 && Fits(name, "con"))
  }

  /** A name is only taken for a known one if it is that one. */
  predicate OnlyKnown(name: Bytes, h: HeaderState) {
    && (h == Connection ==> Names(name, Known(0)) || Names(name, Known(1)))
    && (h == ContentLength ==> Names(name, Known(2)))
    && (h == TransferEncoding ==> Names(name, Known(3)))
    && (h == Upgrade ==> Names(name, Known(4)))
  }

  /** The scan after `name`: `flags` are the flags before it. */
  predicate Scanned(name: Bytes, flags: Flags, h: Scan) {
    && FieldState(h.headerState)
    && (forall k :: 0 <= k < KNOWN ==> Tracks(name, h, k))
    && TracksShared(name, h)
    && OnlyKnown(name, h.headerState)
    && h.flags == FlagsAfterName(flags, name)
  }

  /** A name that begins with "transfer-encoding" leaves its flag behind, even if it goes on. */
  function FlagsAfterName(flags: Flags, name: Bytes): Flags {
    if |name| >= 17 && Fits(name[..17], Known(3)) then flags.(transferEncoding := true) else flags
  }

  lemma FitsSnoc(name: Bytes, ch: Byte, word: string)
    ensures Fits(name + [ch], word) <==> Fits(name, word) && |name| < |word| && Token(ch) == word[|name|]
  {
    assert forall i :: 0 <= i < |name| ==> (name + [ch])[i] == name[i];
    assert (name + [ch])[|name|] == ch;
  }

  lemma NamesSnoc(name: Bytes, ch: Byte, word: string)
    ensures Names(name + [ch], word) <==>
            (|name| + 1 == |word| && Fits(name + [ch], word)) || (Names(name, word) && ch == ' ')
  {
    var more := name + [ch];
    assert more[|name|] == ch;
    if |word| <= |name| {
      assert more[..|word|] == name[..|word|];
      assert forall i :: 0 <= i < |name| ==> more[i] == name[i];
    } else if |word| == |name| + 1 {
      assert more[..|word|] == more;
    }
  }

  /** One step of the comparison with a name that fits so far. */
  lemma MatchStep(name: Bytes, h: Scan, word: string, ch: Byte, done: HeaderState)
    requires 0 < |name| < |word| && Fits(name, word) && h.index == |name| - 1 && Token(ch) != '\0'
    ensures var r := MatchName(h, word, Token(ch), done);
            r == h.(index := |name|, headerState :=
              if !Fits(name + [ch], word) then General else if |name| + 1 == |word| then done else h.headerState)
  {
    FitsSnoc(name, ch, word);
    hide Fits, Token;
  }

  lemma TracksMatching(name: Bytes, h: Scan, k: nat, ch: Byte)
    requires k < KNOWN && h.headerState == MatchingState(k) && Tracks(name, h, k) && Token(ch) != '\0'
    ensures Tracks(name + [ch], FieldByte(h, ch), k)
  {
    FitsSnoc(name, ch, Known(k));
    NamesSnoc(name, ch, Known(k));
    MatchStep(name, h, Known(k), ch, MatchedState(k));
    hide MatchName, Fits, Names, Token;
  }

  lemma TracksC(name: Bytes, h: Scan, k: nat, ch: Byte)
    requires (k == 0 || k == 2) && h.headerState != MatchingState(k)
    requires name != [] && FieldState(h.headerState) && Tracks(name, h, k) && TracksShared(name, h)
    requires Token(ch) != '\0'
    ensures Tracks(name + [ch], FieldByte(h, ch), k)
  {
    FitsSnoc(name, ch, Known(k));
    NamesSnoc(name, ch, Known(k));
    hide Names, Token, MatchName;
  }

  lemma TracksOther(name: Bytes, h: Scan, k: nat, ch: Byte)
    requires (k == 1 || 3 <= k < KNOWN) && h.headerState != MatchingState(k)
    requires name != [] && FieldState(h.headerState) && Tracks(name, h, k)
    requires Token(ch) != '\0'
    ensures Tracks(name + [ch], FieldByte(h, ch), k)
  {
    FitsSnoc(name, ch, Known(k));
    NamesSnoc(name, ch, Known(k));
    hide Fits, Names, Token;
  }

  lemma TracksSharedByte(name: Bytes, h: Scan, ch: Byte)
    requires name != [] && FieldState(h.headerState) && TracksShared(name, h)
    requires Token(ch) != '\0'
    ensures TracksShared(name + [ch], FieldByte(h, ch))
  {
    FitsSnoc(name, ch, "con");
    hide Fits, Token;
  }

  lemma OnlyKnownByte(name: Bytes, h: Scan, ch: Byte)
    requires name != [] && FieldState(h.headerState) && OnlyKnown(name, h.headerState) && Token(ch) != '\0'
    requires forall k :: 0 <= k < KNOWN ==> Tracks(name, h, k)
    ensures OnlyKnown(name + [ch], FieldByte(h, ch).headerState)
  {
    hide Names, Fits, Token;
    forall k | 0 <= k < KNOWN
      ensures (h.headerState == MatchingState(k) ==> |name| < |Known(k)| && Fits(name, Known(k)) && h.index == |name| - 1)
      ensures Fits(name + [ch], Known(k)) <==> Fits(name, Known(k)) && |name| < |Known(k)| && Token(ch) == Known(k)[|name|]
      ensures Names(name + [ch], Known(k)) <==>
            (|name| + 1 == |Known(k)| && Fits(name + [ch], Known(k))) || (Names(name, Known(k)) && ch == ' ')
    {
      FitsSnoc(name, ch, Known(k));
      NamesSnoc(name, ch, Known(k));
      assert Tracks(name, h, k);
    }
    hide Tracks;
  }

  lemma FlagByte(name: Bytes, flags: Flags, h: Scan, ch: Byte)
    requires name != [] && FieldState(h.headerState) && Tracks(name, h, 3) && h.flags == FlagsAfterName(flags, name)
    requires Token(ch) != '\0'
    ensures FieldByte(h, ch).flags == FlagsAfterName(flags, name + [ch])
  {
    var more := name + [ch];
    FitsSnoc(name, ch, Known(3));
    if |name| >= 17 {
      assert more[..17] == name[..17];
    } else if |more| == 17 {
      assert more[..17] == more;
    }
    hide Fits, Names, Token;
  }

  lemma ScannedByte(name: Bytes, flags: Flags, h: Scan, ch: Byte)
    requires name != [] && Scanned(name, flags, h) && Token(ch) != '\0'
    ensures Scanned(name + [ch], flags, FieldByte(h, ch))
  {
    hide Tracks, TracksShared, OnlyKnown, FlagsAfterName, FieldByte, Token, Known;
    forall k | 0 <= k < KNOWN
      ensures Tracks(name + [ch], FieldByte(h, ch), k)
    {
      if h.headerState == MatchingState(k) { TracksMatching(name, h, k, ch); }
      else if k == 0 || k == 2 { TracksC(name, h, k, ch); }
      else { TracksOther(name, h, k, ch); }
    }
    TracksSharedByte(name, h, ch);
    OnlyKnownByte(name, h, ch);
    assert Tracks(name, h, 3);
    FlagByte(name, flags, h, ch);
  }

  lemma FirstTracks(s: Parser, ch: Byte, k: nat)
    requires k < KNOWN
    ensures Tracks([ch], ScanOf(StartField(s, Token(ch))), k)
  {
    hide Token;
    var name := [ch];
    assert Fits(name, Known(k)) <==> Token(ch) == Known(k)[0] by {
      assert name[0] == ch;
    }
    hide Fits;
  }

  lemma ScannedFirst(s: Parser, ch: Byte)
    requires Token(ch) != '\0'
    ensures Scanned([ch], s.flags, ScanOf(StartField(s, Token(ch))))
  {
    hide Token, Tracks;
    forall k | 0 <= k < KNOWN
      ensures Tracks([ch], ScanOf(StartField(s, Token(ch))), k)
    {
      FirstTracks(s, ch, k);
    }
  }

  /** The scan over a whole name. */
  lemma {:induction false} ScannedAll(s: Parser, name: Bytes)
    requires name != [] && AllTokens(name)
    ensures FieldState(ScanOf(StartField(s, Token(name[0]))).headerState)
    ensures Scanned(name, s.flags, FieldAll(ScanOf(StartField(s, Token(name[0]))), name[1..]))
    decreases |name|
  {
    hide Scanned, FieldByte, Token;
    var n := |name| - 1;
    var h := ScanOf(StartField(s, Token(name[0])));
    if n == 0 {
      ScannedFirst(s, name[0]);
      assert name == [name[0]] && name[1..] == [];
    } else {
      ScannedAll(s, name[..n]);
      assert name[..n][1..] == name[1..][..n - 1] && name[1..][n - 1] == name[n];
      ScannedByte(name[..n], s.flags, FieldAll(h, name[..n][1..]), name[n]);
      assert name[..n] + [name[n]] == name;
    }
  }

  // ----- a run over a name and its colon

  /** A header name is taken for one of the known ones exactly when it is that one. */
  predicate Recognised(name: Bytes, h: HeaderState) {
    && FieldState(h)
    && (h == Connection <==> Names(name, "connection") || Names(name, "proxy-connection"))
    && (h == ContentLength <==> Names(name, "content-length"))
    && (h == TransferEncoding <==> Names(name, "transfer-encoding"))
    && (h == Upgrade <==> Names(name, "upgrade"))
  }

  lemma ScannedRecognises(name: Bytes, flags: Flags, h: Scan)
    requires Scanned(name, flags, h)
    ensures Recognised(name, h.headerState) && h.flags == FlagsAfterName(flags, name)
  {
    hide Names, TracksShared, FlagsAfterName;
    assert Tracks(name, h, 0) && Tracks(name, h, 1) && Tracks(name, h, 2) && Tracks(name, h, 3) && Tracks(name, h, 4);
  }

  lemma FirstNameOnce(cfg: Settings, s: Parser, ch: Byte)
    requires Inv(s) && s.state == HeaderFieldStart && Token(ch) != '\0'
    ensures Once(cfg, s, ch) == Consume(StartField(s, Token(ch)), Mark(HeaderFieldData))
  {
    hide Inv, FieldByte, StartField;
    BreaksAreNoTokens(ch);
    hide Token;
  }

  lemma FirstNameByte(cfg: Settings, s: Parser, ch: Byte)
    requires AtRest(cfg, s) && s.state == HeaderFieldStart && Token(ch) != '\0' && s.nread + 1 <= cfg.maxHeaderSize
    ensures StepByte(cfg, s, ch) ==
            Running(StartField(s, Token(ch)).(nread := s.nread + 1), [Data(HeaderFieldData, [ch])])
  {
    hide Inv, AtRest, Once, StepByte, StartField, CountedByte, Token;
    CountKeepsInv(cfg, s);
    FirstNameOnce(cfg, Count(s), ch);
    StartFieldCounts(s, Token(ch), s.nread + 1);
    StepConsume(cfg, s, ch, StartField(Count(s), Token(ch)), Mark(HeaderFieldData));
  }

  lemma BreaksAreNoTokens(ch: Byte)
    requires Token(ch) != '\0'
    ensures ch != CR && ch != LF && ch != ':'
  {
  }

  lemma StartFieldCounts(s: Parser, c: Byte, n: nat)
    ensures StartField(s.(nread := n), c) == StartField(s, c).(nread := n)
    ensures StartField(s, c).state == HeaderField && StartField(s, c).nread == s.nread
  {
  }

  lemma ColonOnce(cfg: Settings, s: Parser)
    requires Inv(s) && s.state == HeaderField
    ensures Once(cfg, s, ':') == Consume(s.(state := HeaderValueDiscardWs), Flush(HeaderFieldData))
  {
    hide FieldByte, FieldState, ValueState, MethodName;
  }

  lemma ColonByte(cfg: Settings, s: Parser)
    requires AtRest(cfg, s) && s.state == HeaderField && s.nread + 1 <= cfg.maxHeaderSize
    ensures StepByte(cfg, s, ':') ==
            Running(s.(state := HeaderValueDiscardWs, nread := s.nread + 1), [Data(HeaderFieldData, [])])
  {
    hide Inv, AtRest, Once, StepByte, CountedByte;
    CountKeepsInv(cfg, s);
    ColonOnce(cfg, Count(s));
    StepConsume(cfg, s, ':', Count(s).(state := HeaderValueDiscardWs), Flush(HeaderFieldData));
  }

  /** The scan over a whole name. */
  function NameScan(s: Parser, name: Bytes): Scan
    requires name != [] && FieldState(StartField(s, Token(name[0])).headerState)
  {
    FieldAll(ScanOf(StartField(s, Token(name[0]))), name[1..])
  }

  lemma NameRun(cfg: Settings, s: Parser, name: Bytes)
    requires AtRest(cfg, s) && s.state == HeaderFieldStart && name != [] && AllTokens(name)
    requires s.nread + |name| <= cfg.maxHeaderSize
    ensures FieldState(StartField(s, Token(name[0])).headerState)
    ensures Run(cfg, s, name) == Running(WithScan(s, NameScan(s, name)).(state := HeaderField, nread := s.nread + |name|),
                                         Singles(HeaderFieldData, name))
  {
    hide StepByte, AtRest, Inv, Token, FieldByte, FieldAll, Singles, Run, FieldState;
    var first, rest := name[0], name[1..];
    assert Token(first) != '\0';
    FirstNameByte(cfg, s, first);
    RunFirst(cfg, s, first);
    var s1 := Run(cfg, s, [first]).parser;
    assert name == [first] + rest;
    RunAppend(cfg, s, [first], rest);
    RunField(cfg, s1, rest);
    SinglesFirst(HeaderFieldData, name);
    ScannedAll(s, name);
  }

  /** A header name and its colon: the whole name is reported, and the parser knows which of the
      names it acts on this is. */
  lemma HeaderName(cfg: Settings, s: Parser, name: Bytes)
    requires AtRest(cfg, s) && s.state == HeaderFieldStart && name != [] && AllTokens(name)
    requires s.nread + |name| + 1 <= cfg.maxHeaderSize
    ensures var r := Run(cfg, s, name + [':']);
            && r.Running?
            && Recognised(name, r.parser.headerState)
            && r.parser == s.(state := HeaderValueDiscardWs, headerState := r.parser.headerState, index := r.parser.index,
                              flags := FlagsAfterName(s.flags, name), nread := s.nread + |name| + 1)
            && r.events == Singles(HeaderFieldData, name) + [Data(HeaderFieldData, [])]
  {
    hide StepByte, AtRest, Recognised, AllTokens, Token, FieldByte, FieldAll, Singles, Scanned, FlagsAfterName, FieldState, Run, StartField;
    NameRun(cfg, s, name);
    ScannedAll(s, name);
    var h := NameScan(s, name);
    ScannedRecognises(name, s.flags, h);
    ScanKeepsLength(s, name);
    ColonByte(cfg, Run(cfg, s, name).parser);
    RunSnoc(cfg, s, name, ':');
  }

  lemma ScanKeepsLength(s: Parser, name: Bytes)
    requires name != [] && FieldState(StartField(s, Token(name[0])).headerState)
    ensures NameScan(s, name).contentLength == s.contentLength
  {
  }

  lemma {:induction false} SinglesFirst(kind: DataKind, bytes: Bytes)
    requires bytes != []
    ensures Singles(kind, bytes) == [Data(kind, [bytes[0]])] + Singles(kind, bytes[1..])
    decreases |bytes|
  {
    var n := |bytes| - 1;
    if n > 0 {
      SinglesFirst(kind, bytes[..n]);
      assert bytes[..n][1..] == bytes[1..][..n - 1];
    }
  }
}
