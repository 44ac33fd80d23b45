/** The two header values that are lists of tokens, Connection and Transfer-Encoding: which elements of
    a list the parser hears, against the list that was written. */
module HttpHeaderLists {
  import opened HttpTypes
  import opened HttpMachine
  import opened HttpBatch

  /** One element: a token, and the spaces around it. */
  datatype Element = Element(before: nat, word: Bytes, after: nat)

  function Spaces(n: nat): (r: Bytes)
    ensures |r| == n && forall i :: 0 <= i < n ==> r[i] == ' '
  {
    seq(n, _ => ' ')
  }

  function PrintElement(e: Element): Bytes { Spaces(e.before) + e.word + Spaces(e.after) }

  /** A list of tokens, as section 7 of RFC 7230 writes it. */
  function PrintList(es: seq<Element>): Bytes {
    var n := |es| - 1;
    if n < 0 then [] else if n == 0 then PrintElement(es[0])
    else PrintList(es[..n]) + [','] + PrintElement(es[n])
  }

  predicate TokenChars(bytes: Bytes) { forall i :: 0 <= i < |bytes| ==> StrictToken(bytes[i]) != '\0' }

  predicate IsToken(word: Bytes) { word != [] && TokenChars(word) }

  predicate IsList(es: seq<Element>) {
    es != [] && es[0].before == 0 && forall i :: 0 <= i < |es| ==> IsToken(es[i].word)
  }

  /** The tokens looked for in each of the two lists. */
  function Words(conn: bool): seq<string> { if conn then ["keep-alive", "close", "upgrade"] else ["chunked"] }

  /** `word` begins as `known` does, up to the case of the letters. */
  predicate Like(word: Bytes, known: string) {
    |word| <= |known| && forall i :: 0 <= i < |word| ==> Lower(word[i]) == known[i]
  }

  predicate Is(word: Bytes, known: string) { |word| == |known| && Like(word, known) }

  // ----- what is heard

  /** How an element begins: as an element, as a rest of the one before, or unheard with all that follow. */
  datatype Position = Fresh | Swallowed | Lost

  /** After a comma, the parser gives up on a token whose first character is '_': it looks that
      character up in the token table after setting its lower-case bit. */
  predicate Blocks(e: Element) { e.word != [] && e.word[0] == '_' }

  /** The comma after an element that is only the beginning of a known token is taken for a letter of
      it; so is the comma after "chunked". */
  predicate Swallows(conn: bool, e: Element) {
    || (e.after == 0 && exists k :: 0 <= k < |Words(conn)| && |e.word| < |Words(conn)[k]| && Like(e.word, Words(conn)[k]))
    || (!conn && Is(e.word, "chunked"))
  }

  /** Where the elements of a list leave the next one. */
  function After(conn: bool, es: seq<Element>): Position {
    var n := |es| - 1;
    if n < 0 then Fresh
    else match After(conn, es[..n])
      case Lost => Lost
      case Swallowed => Fresh
      case Fresh => if n > 0 && Blocks(es[n]) then Lost else if Swallows(conn, es[n]) then Swallowed else Fresh
  }

  /** The i-th element is heard. */
  predicate Hears(conn: bool, es: seq<Element>, i: nat)
    requires i < |es|
  {
    After(conn, es[..i]) == Fresh && (i == 0 || !Blocks(es[i]))
  }

  /** Every element of a list is heard exactly when none but the first begins with '_', and none but the
      last swallows its comma. */
  lemma {:induction false} AllHeard(conn: bool, es: seq<Element>)
    ensures (forall i: nat :: i < |es| ==> Hears(conn, es, i)) <==>
            (forall i: nat :: i < |es| ==> (i > 0 ==> !Blocks(es[i])) && (i + 1 < |es| ==> !Swallows(conn, es[i])))
  {
    hide Blocks, Swallows;
    if forall i: nat :: i < |es| ==> Hears(conn, es, i) {
      forall i: nat | i < |es|
        ensures (i > 0 ==> !Blocks(es[i])) && (i + 1 < |es| ==> !Swallows(conn, es[i]))
      {
        assert Hears(conn, es, i);
        if i + 1 < |es| {
          assert Hears(conn, es, i + 1);
          assert es[..i + 1][..i] == es[..i];
        }
      }
    }
    if forall i: nat :: i < |es| ==> (i > 0 ==> !Blocks(es[i])) && (i + 1 < |es| ==> !Swallows(conn, es[i])) {
      forall i: nat | i < |es|
        ensures Hears(conn, es, i)
      {
        StaysFresh(conn, es, i);
      }
    }
  }

  lemma {:induction false} StaysFresh(conn: bool, es: seq<Element>, n: nat)
    requires n < |es|
    requires forall i: nat :: i < |es| ==> (i > 0 ==> !Blocks(es[i])) && (i + 1 < |es| ==> !Swallows(conn, es[i]))
    ensures After(conn, es[..n]) == Fresh
    decreases n
  {
    if n > 0 {
      StaysFresh(conn, es, n - 1);
      assert es[..n][..n - 1] == es[..n - 1];
    }
  }

  // ----- the scanner on a list

  /** Where the scanner is within a list. */
  datatype Lex = Begin | Matching(k: nat, i: nat) | Whole(k: nat) | Other | Stuck

  function StateOf(conn: bool, x: Lex): HeaderState {
    match x
    case Begin => if conn then ConnectionTokenStart else TransferEncodingTokenStart
    case Matching(k, _) =>
      if !conn then MatchingChunked else if k == 0 then MatchingKeepAlive
      else if k == 1 then MatchingClose else MatchingConnectionUpgrade
    case Whole(k) =>
      if !conn then TransferEncodingChunked else if k == 0 then ConnectionKeepAlive
      else if k == 1 then ConnectionClose else ConnectionUpgrade
    case Other => if conn then ConnectionToken else TransferEncodingToken
    case Stuck => General
  }

  predicate At(conn: bool, h: Scan, x: Lex) {
    && h.headerState == StateOf(conn, x)
    && (x.Begin? ==> h.index == 0)
    && (x.Matching? ==> x.k < |Words(conn)| && h.index == x.i && x.i + 1 < |Words(conn)[x.k]|)
    && (x.Whole? ==> x.k < |Words(conn)|)
  }

  /** The known token that a first letter stands for. */
  function Key(conn: bool, c: Byte): (k: int)
    ensures -1 <= k < |Words(conn)|
    ensures forall j :: 0 <= j < |Words(conn)| && Words(conn)[j][0] == c ==> j == k
    ensures 0 <= k ==> Words(conn)[k][0] == c
  {
    if !conn then if c == 'c' then 0 else -1
    else if c == 'k' then 0 else if c == 'c' then 1 else if c == 'u' then 2 else -1
  }

  /** Where the scanner is when it has read `word` as an element. */
  function LexOf(conn: bool, word: Bytes): (x: Lex)
    requires word != []
    ensures !x.Begin? && !x.Stuck?
  {
    var k := Key(conn, Lower(word[0]));
    if k < 0 || !Like(word, Words(conn)[k]) then Other
    else if |word| == |Words(conn)[k]| then Whole(k)
    else Matching(k, |word| - 1)
  }

  /** The same scan but for the substate and the index. */
  predicate SameBut(h: Scan, h': Scan) { h'.flags == h.flags && h'.contentLength == h.contentLength }

  lemma LikeSnoc(word: Bytes, ch: Byte, known: string)
    ensures Like(word + [ch], known) <==> Like(word, known) && |word| < |known| && Lower(ch) == known[|word|]
  {
    assert forall i :: 0 <= i < |word| ==> (word + [ch])[i] == word[i];
    assert (word + [ch])[|word|] == ch;
  }

  lemma TokenChar(ch: Byte)
    requires StrictToken(ch) != '\0'
    ensures IsHeaderChar(ch) && ch != ',' && ch != ' ' && ch != CR && ch != LF
    ensures StrictToken(Lower(ch)) == '\0' <==> ch == '_'
    ensures Lower(ch) != ' ' && Lower(ch) != '\t'
  {
  }

  lemma ReadsAt(conn: bool, h: Scan, x: Lex)
    requires At(conn, h, x)
    ensures ReadsValue(h)
  {
  }

  /** The first letter of an element that is not the first one. */
  lemma BeginByte(conn: bool, h: Scan, ch: Byte)
    requires At(conn, h, Begin) && StrictToken(ch) != '\0'
    ensures var r := ValueByte(h, ch);
            && r.Good? && SameBut(h, r.scan)
            && At(conn, r.scan, if ch == '_' then Stuck else LexOf(conn, [ch]))
  {
    TokenChar(ch);
    hide IsHeaderChar, StrictToken;
    assert [ch][0] == ch;
  }

  lemma TokenStep(s: Scan, known: string, c: Byte, done: HeaderState, other: HeaderState)
    requires s.index + 1 < |known|
    ensures var next := if c != known[s.index + 1] then other else if s.index + 2 == |known| then done else s.headerState;
            MatchToken(s, known, c, done, other) == s.(index := s.index + 1, headerState := next)
  {
  }

  lemma MatchingValue(conn: bool, h: Scan, x: Lex, ch: Byte)
    requires At(conn, h, x) && x.Matching? && IsHeaderChar(ch)
    ensures ValueByte(h, ch) ==
            Good(MatchToken(h, Words(conn)[x.k], Lower(ch), StateOf(conn, Whole(x.k)), StateOf(conn, Other)))
  {
    hide MatchToken, IsHeaderChar, Lower;
  }

  lemma MatchingByte(conn: bool, h: Scan, word: Bytes, ch: Byte)
    requires word != [] && At(conn, h, LexOf(conn, word)) && LexOf(conn, word).Matching? && StrictToken(ch) != '\0'
    ensures var r := ValueByte(h, ch);
            r.Good? && SameBut(h, r.scan) && At(conn, r.scan, LexOf(conn, word + [ch]))
  {
    hide ValueByte, IsHeaderChar, StrictToken, MatchToken, Lower;
    TokenChar(ch);
    assert (word + [ch])[0] == word[0];
    var k := Key(conn, Lower(word[0]));
    LikeSnoc(word, ch, Words(conn)[k]);
    TokenStep(h, Words(conn)[k], Lower(ch), StateOf(conn, Whole(k)), StateOf(conn, Other));
    MatchingValue(conn, h, LexOf(conn, word), ch);
    assert StateOf(conn, Matching(k, |word| - 1)) == StateOf(conn, Matching(k, |word|));
    hide Like, Words, Key, StateOf;
  }

  lemma OtherByte(conn: bool, h: Scan, x: Lex, ch: Byte)
    requires At(conn, h, x) && (x.Whole? || x.Other?) && IsHeaderChar(ch) && ch != ',' && ch != ' '
    ensures ValueByte(h, ch) == Good(h.(headerState := StateOf(conn, Other)))
  {
    hide IsHeaderChar, MatchToken;
  }

  lemma WordByte(conn: bool, h: Scan, word: Bytes, ch: Byte)
    requires word != [] && At(conn, h, LexOf(conn, word)) && StrictToken(ch) != '\0'
    ensures var r := ValueByte(h, ch);
            r.Good? && SameBut(h, r.scan) && At(conn, r.scan, LexOf(conn, word + [ch]))
  {
    if LexOf(conn, word).Matching? {
      MatchingByte(conn, h, word, ch);
    } else {
      TokenChar(ch);
      OtherByte(conn, h, LexOf(conn, word), ch);
      hide ValueByte, IsHeaderChar, StrictToken;
      assert (word + [ch])[0] == word[0];
      var k := Key(conn, Lower(word[0]));
      if 0 <= k {
        LikeSnoc(word, ch, Words(conn)[k]);
      }
      hide Words, Key, Like, Lower, StateOf;
    }
  }

  lemma {:induction false} ValueAppend(h: Scan, a: Bytes, b: Bytes)
    requires ReadsValue(h) && ValueAll(h, a).Good?
    ensures ValueAll(h, a + b) == ValueAll(ValueAll(h, a).scan, b)
    decreases |b|
  {
    hide ValueByte, ReadsValue;
    if b == [] {
      assert a + b == a;
    } else {
      var n := |b| - 1;
      assert (a + b)[..|a| + n] == a + b[..n];
      ValueAppend(h, a, b[..n]);
    }
  }

  lemma ValueSnoc(h: Scan, a: Bytes, ch: Byte)
    requires ReadsValue(h)
    ensures var r := ValueAll(h, a); ValueAll(h, a + [ch]) == if r.Good? then ValueByte(r.scan, ch) else r
  {
    hide ValueByte, ReadsValue;
    assert (a + [ch])[..|a|] == a;
  }

  /** `rest`, read after a first letter, leaves the scanner where that token does. */
  predicate ReadWord(conn: bool, h: Scan, first: Byte, rest: Bytes) {
    && ReadsValue(h) && ValueAll(h, rest).Good? && SameBut(h, ValueAll(h, rest).scan)
    && At(conn, ValueAll(h, rest).scan, LexOf(conn, [first] + rest))
  }

  lemma WordMore(conn: bool, h: Scan, first: Byte, rest: Bytes, ch: Byte)
    requires ReadWord(conn, h, first, rest) && StrictToken(ch) != '\0'
    ensures ReadWord(conn, h, first, rest + [ch])
  {
    hide At, LexOf, ReadsValue, ValueAll, ValueByte, StrictToken;
    assert [first] + (rest + [ch]) == ([first] + rest) + [ch];
    WordByte(conn, ValueAll(h, rest).scan, [first] + rest, ch);
    ValueSnoc(h, rest, ch);
  }

  lemma WordNone(conn: bool, h: Scan, first: Byte)
    requires At(conn, h, LexOf(conn, [first]))
    ensures ReadWord(conn, h, first, [])
  {
    ReadsAt(conn, h, LexOf(conn, [first]));
    hide At, LexOf, ReadsValue;
    assert [first] + [] == [first];
  }

  lemma {:induction false} WordRest(conn: bool, h: Scan, first: Byte, rest: Bytes)
    requires At(conn, h, LexOf(conn, [first])) && TokenChars(rest)
    ensures ReadWord(conn, h, first, rest)
    decreases |rest|
  {
    hide ReadWord, At, LexOf, StrictToken;
    var n := |rest| - 1;
    if n < 0 {
      WordNone(conn, h, first);
    } else {
      WordRest(conn, h, first, rest[..n]);
      WordMore(conn, h, first, rest[..n], rest[n]);
      assert rest[..n] + [rest[n]] == rest;
    }
  }

  /** Where the scanner is after n spaces. */
  function AfterSpaces(x: Lex, n: nat): Lex { if n > 0 && x.Matching? then Other else x }

  lemma SpaceStays(conn: bool, h: Scan, x: Lex)
    requires At(conn, h, x) && !x.Matching?
    ensures ValueByte(h, ' ') == Good(h)
  {
    hide MatchToken, Words;
  }

  lemma SpaceByte(conn: bool, h: Scan, x: Lex)
    requires At(conn, h, x)
    ensures var r := ValueByte(h, ' '); r.Good? && SameBut(h, r.scan) && At(conn, r.scan, AfterSpaces(x, 1))
  {
    hide ValueByte, MatchToken;
    if x.Matching? {
      TokenSpace();
      MatchingValue(conn, h, x, ' ');
      assert ' ' !in Words(conn)[x.k];
      TokenStep(h, Words(conn)[x.k], ' ', StateOf(conn, Whole(x.k)), StateOf(conn, Other));
    } else {
      SpaceStays(conn, h, x);
    }
  }

  lemma {:induction false} SpacesRead(conn: bool, h: Scan, x: Lex, n: nat)
    requires At(conn, h, x)
    ensures ReadsValue(h)
    ensures var r := ValueAll(h, Spaces(n)); r.Good? && SameBut(h, r.scan) && At(conn, r.scan, AfterSpaces(x, n))
    decreases n
  {
    ReadsAt(conn, h, x);
    hide At, ValueByte, ReadsValue;
    if n > 0 {
      SpacesRead(conn, h, x, n - 1);
      assert Spaces(n) == Spaces(n - 1) + [' '];
      SpaceByte(conn, ValueAll(h, Spaces(n - 1)).scan, AfterSpaces(x, n - 1));
      ValueSnoc(h, Spaces(n - 1), ' ');
    }
  }

  /** Bytes that a swallowed or a lost element is made of. */
  lemma {:induction false} UnheardRead(conn: bool, h: Scan, x: Lex, bytes: Bytes)
    requires (x == Other || x == Stuck) && At(conn, h, x)
    requires forall i :: 0 <= i < |bytes| ==> IsHeaderChar(bytes[i]) && bytes[i] != ','
    ensures ReadsValue(h)
    ensures ValueAll(h, bytes) == Good(h)
    decreases |bytes|
  {
    ReadsAt(conn, h, x);
    var n := |bytes| - 1;
    if n >= 0 {
      UnheardRead(conn, h, x, bytes[..n]);
    }
  }

  // ----- elements

  function PositionLex(p: Position): Lex {
    match p case Fresh => Begin case Swallowed => Other case Lost => Stuck
  }

  /** Where the scanner is at the end of an element, before the comma. */
  function ElementLex(conn: bool, p: Position, first: bool, e: Element): Lex
    requires e.word != []
  {
    match p
    case Lost => Stuck
    case Swallowed => Other
    case Fresh => if !first && Blocks(e) then Stuck else AfterSpaces(LexOf(conn, e.word), e.after)
  }

  lemma ElementChars(e: Element)
    requires IsToken(e.word)
    ensures forall i :: 0 <= i < |PrintElement(e)| ==> IsHeaderChar(PrintElement(e)[i]) && PrintElement(e)[i] != ','
  {
    hide StrictToken, IsHeaderChar;
    forall i | 0 <= i < |e.word|
      ensures IsHeaderChar(e.word[i]) && e.word[i] != ','
    {
      TokenChar(e.word[i]);
    }
    assert IsHeaderChar(' ') by { TokenSpace(); }
  }

  lemma TokenSpace()
    ensures IsHeaderChar(' ')
  {
  }

  /** The word of an element and the spaces after it, when its first letter has been read. */
  lemma AfterFirst(conn: bool, h: Scan, x: Lex, e: Element)
    requires IsToken(e.word) && At(conn, h, x) && (x == Stuck || x == LexOf(conn, e.word[..1]))
    ensures ReadsValue(h)
    ensures var r := ValueAll(h, e.word[1..] + Spaces(e.after));
            && r.Good? && SameBut(h, r.scan)
            && At(conn, r.scan, if x == Stuck then Stuck else AfterSpaces(LexOf(conn, e.word), e.after))
  {
    hide ValueByte, LexOf;
    ReadsAt(conn, h, x);
    var rest, last := e.word[1..], Spaces(e.after);
    assert e.word[..1] == [e.word[0]] && [e.word[0]] + rest == e.word;
    if x == Stuck {
      ElementChars(e);
      TailChars(e);
      UnheardRead(conn, h, Stuck, rest + last);
    } else {
      hide At, StrictToken;
      WordRest(conn, h, e.word[0], rest);
      SpacesRead(conn, ValueAll(h, rest).scan, LexOf(conn, e.word), e.after);
      ValueAppend(h, rest, last);
    }
  }

  lemma TailChars(e: Element)
    requires IsToken(e.word)
    ensures forall i :: 0 <= i < |e.word[1..] + Spaces(e.after)| ==>
              IsHeaderChar((e.word[1..] + Spaces(e.after))[i]) && (e.word[1..] + Spaces(e.after))[i] != ','
  {
    ElementChars(e);
    hide IsHeaderChar, StrictToken;
    var all, tail := PrintElement(e), e.word[1..] + Spaces(e.after);
    assert all[e.before + 1..] == tail;
  }

  /** An element that is not the first one. */
  lemma ElementRead(conn: bool, h: Scan, p: Position, e: Element)
    requires IsToken(e.word) && At(conn, h, PositionLex(p))
    ensures ReadsValue(h)
    ensures var r := ValueAll(h, PrintElement(e));
            r.Good? && SameBut(h, r.scan) && At(conn, r.scan, ElementLex(conn, p, false, e))
  {
    hide ValueByte, LexOf, StrictToken;
    ReadsAt(conn, h, PositionLex(p));
    if p != Fresh {
      ElementChars(e);
      UnheardRead(conn, h, PositionLex(p), PrintElement(e));
    } else {
      assert StrictToken(e.word[0]) != '\0';
      hide At, IsToken;
      SpacesRead(conn, h, Begin, e.before);
      var h1 := ValueAll(h, Spaces(e.before)).scan;
      ValueSnoc(h, Spaces(e.before), e.word[0]);
      assert e.word[..1] == [e.word[0]];
      BeginByte(conn, h1, e.word[0]);
      var h2 := ValueByte(h1, e.word[0]).scan;
      AfterFirst(conn, h2, if Blocks(e) then Stuck else LexOf(conn, e.word[..1]), e);
      ValueAppend(h, Spaces(e.before) + [e.word[0]], e.word[1..] + Spaces(e.after));
      assert Spaces(e.before) + [e.word[0]] + (e.word[1..] + Spaces(e.after)) == PrintElement(e);
    }
  }

  // ----- commas

  lemma CommaByte(conn: bool, h: Scan, x: Lex)
    requires At(conn, h, x) && !x.Begin?
    ensures var r := ValueByte(h, ',');
            && r.Good? && r.scan.contentLength == h.contentLength
            && r.scan.flags == (if conn && x.Whole? then SetConnectionFlag(h.flags, h.headerState) else h.flags)
            && At(conn, r.scan,
                  if x.Stuck? then Stuck else if x.Matching? || (!conn && x.Whole?) then Other else Begin)
  {
    if x.Matching? {
      MatchingValue(conn, h, x, ',');
      assert ',' !in Words(conn)[x.k];
      TokenStep(h, Words(conn)[x.k], ',', StateOf(conn, Whole(x.k)), StateOf(conn, Other));
    }
    hide MatchToken;
  }

  lemma LikeBegins(word: Bytes, known: string)
    requires word != [] && Like(word, known)
    ensures known != [] && Lower(word[0]) == known[0]
  {
  }

  /** An element swallows its comma exactly when the scanner is still matching at its end, or has just
      matched "chunked". */
  lemma SwallowsLex(conn: bool, e: Element)
    requires IsToken(e.word)
    ensures var x := AfterSpaces(LexOf(conn, e.word), e.after);
            Swallows(conn, e) <==> x.Matching? || (!conn && x.Whole?)
  {
    var key := Key(conn, Lower(e.word[0]));
    forall k | 0 <= k < |Words(conn)| && Like(e.word, Words(conn)[k])
      ensures k == key
    {
      LikeBegins(e.word, Words(conn)[k]);
    }
    hide Like, Lower, StrictToken;
    if !conn {
      assert Words(conn)[0] == "chunked";
    }
  }

  lemma CommaAfter(conn: bool, h: Scan, p: Position, first: bool, e: Element, next: Position)
    requires IsToken(e.word) && At(conn, h, ElementLex(conn, p, first, e))
    requires next == match p
      case Lost => Lost
      case Swallowed => Fresh
      case Fresh => if !first && Blocks(e) then Lost else if Swallows(conn, e) then Swallowed else Fresh
    ensures var r := ValueByte(h, ',');
            && r.Good? && r.scan.contentLength == h.contentLength && At(conn, r.scan, PositionLex(next))
            && r.scan.flags == if conn && ElementLex(conn, p, first, e).Whole? then SetConnectionFlag(h.flags, h.headerState)
                               else h.flags
  {
    hide At, ValueByte, SetConnectionFlag, StrictToken, Blocks;
    SwallowsLex(conn, e);
    hide Swallows;
    CommaByte(conn, h, ElementLex(conn, p, first, e));
  }

  // ----- whole lists

  /** The flag a known token sets in a Connection header. */
  function SetFor(flags: Flags, word: Bytes): Flags {
    if Is(word, "keep-alive") then flags.(connectionKeepAlive := true)
    else if Is(word, "close") then flags.(connectionClose := true)
    else if Is(word, "upgrade") then flags.(connectionUpgrade := true)
    else flags
  }

  /** The flags after the elements of a Connection header, or of a Transfer-Encoding header but its last. */
  function Told(conn: bool, flags: Flags, es: seq<Element>): Flags {
    var n := |es| - 1;
    if n < 0 || !conn then flags
    else if Hears(conn, es, n) then SetFor(Told(conn, flags, es[..n]), es[n].word)
    else Told(conn, flags, es[..n])
  }

  /** Some element that is heard is this token. */
  ghost predicate Mentions(conn: bool, es: seq<Element>, known: string) {
    exists i: nat :: i < |es| && Hears(conn, es, i) && Is(es[i].word, known)
  }

  lemma HearsPrefix(conn: bool, es: seq<Element>, n: nat, i: nat)
    requires i < n <= |es|
    ensures Hears(conn, es[..n], i) == Hears(conn, es, i) && es[..n][i] == es[i]
  {
    assert es[..n][..i] == es[..i];
  }

  lemma MentionsSnoc(conn: bool, es: seq<Element>, known: string)
    requires es != []
    ensures var n := |es| - 1;
            Mentions(conn, es, known) <==> Mentions(conn, es[..n], known) || (Hears(conn, es, n) && Is(es[n].word, known))
  {
    hide Hears, Is;
    var n := |es| - 1;
    forall i: nat | i < n
      ensures Hears(conn, es[..n], i) == Hears(conn, es, i) && es[..n][i] == es[i]
    {
      HearsPrefix(conn, es, n, i);
    }
    if Mentions(conn, es, known) {
      var i: nat :| i < |es| && Hears(conn, es, i) && Is(es[i].word, known);
      assert i < n ==> Hears(conn, es[..n], i);
    }
    if Mentions(conn, es[..n], known) {
      var i: nat :| i < n && Hears(conn, es[..n], i) && Is(es[..n][i].word, known);
      assert Hears(conn, es, i);
    }
  }

  lemma SetForMeans(flags: Flags, word: Bytes)
    ensures SetFor(flags, word) == flags.(
              connectionKeepAlive := flags.connectionKeepAlive || Is(word, "keep-alive"),
              connectionClose := flags.connectionClose || Is(word, "close"),
              connectionUpgrade := flags.connectionUpgrade || Is(word, "upgrade"))
  {
    assert |"keep-alive"| == 10 && |"close"| == 5 && |"upgrade"| == 7;
    hide Like;
  }

  /** The flags that the tokens heard in a list stand for. */
  ghost function FlagsMentioned(flags: Flags, es: seq<Element>): Flags {
    flags.(connectionKeepAlive := flags.connectionKeepAlive || Mentions(true, es, "keep-alive"),
           connectionClose := flags.connectionClose || Mentions(true, es, "close"),
           connectionUpgrade := flags.connectionUpgrade || Mentions(true, es, "upgrade"))
  }

  lemma MentionedSnoc(flags: Flags, es: seq<Element>)
    requires es != []
    ensures var n := |es| - 1;
            var before := FlagsMentioned(flags, es[..n]);
            FlagsMentioned(flags, es) == if Hears(true, es, n) then SetFor(before, es[n].word) else before
  {
    hide Hears, Is, Mentions, SetFor;
    var n := |es| - 1;
    MentionsSnoc(true, es, "keep-alive");
    MentionsSnoc(true, es, "close");
    MentionsSnoc(true, es, "upgrade");
    SetForMeans(FlagsMentioned(flags, es[..n]), es[n].word);
  }

  /** The flags after a Connection header are exactly those of the known tokens that are heard in it. */
  lemma {:induction false} ToldMeans(flags: Flags, es: seq<Element>)
    ensures Told(true, flags, es) == FlagsMentioned(flags, es)
    decreases |es|
  {
    hide Hears, Mentions, SetFor;
    if es == [] {
      MentionsNothing();
    } else {
      hide FlagsMentioned;
      ToldMeans(flags, es[..|es| - 1]);
      MentionedSnoc(flags, es);
    }
  }

  lemma MentionsNothing()
    ensures forall known: string :: !Mentions(true, [], known)
  {
  }

  /** A list that RFC 7230 allows, whose second element is not heard: in "c, close" the comma is taken for a
      letter of the first token, and the connection is not marked to close. */
  lemma CloseUnheard()
    ensures var es := [Element(0, ['c'], 0), Element(1, ['c', 'l', 'o', 's', 'e'], 0)];
            && IsList(es) && Is(es[1].word, "close") && !Hears(true, es, 1)
            && !Told(true, NO_FLAGS, es).connectionClose
  {
    var es := [Element(0, ['c'], 0), Element(1, ['c', 'l', 'o', 's', 'e'], 0)];
    assert Like(es[0].word, Words(true)[1]);
    assert es[..1][..0] == [] && es[..1][0] == es[0];
    assert es[..0] == [];
    assert After(true, es[..0]) == Fresh;
    assert After(true, es[..1]) == Swallowed;
    assert !Hears(true, es, 1);
    assert Told(true, NO_FLAGS, es[..1]) == NO_FLAGS;
  }

  /** `h` is where the scan is at the end of a list, before the comma or the end of the line. */
  predicate ReadList(conn: bool, h0: Scan, es: seq<Element>, h: Scan)
    requires es != [] && IsToken(es[|es| - 1].word)
  {
    var n := |es| - 1;
    && At(conn, h, ElementLex(conn, After(conn, es[..n]), n == 0, es[n]))
    && h.contentLength == h0.contentLength
    && h.flags == Told(conn, h0.flags, es[..n])
  }

  lemma SetForWhole(conn: bool, flags: Flags, e: Element)
    requires IsToken(e.word) && conn
    ensures var x := AfterSpaces(LexOf(conn, e.word), e.after);
            SetFor(flags, e.word) == if x.Whole? then SetConnectionFlag(flags, StateOf(conn, x)) else flags
  {
    var key := Key(conn, Lower(e.word[0]));
    forall k | 0 <= k < |Words(conn)| && Like(e.word, Words(conn)[k])
      ensures k == key
    {
      LikeBegins(e.word, Words(conn)[k]);
    }
    assert Words(conn)[0] == "keep-alive" && Words(conn)[1] == "close" && Words(conn)[2] == "upgrade";
    hide Like, Lower, StrictToken;
  }

  /** What the last element of a list adds to the flags, heard or not. */
  lemma LastTells(conn: bool, flags: Flags, es: seq<Element>)
    requires es != [] && IsToken(es[|es| - 1].word) && conn
    ensures var n := |es| - 1;
            var x := ElementLex(conn, After(conn, es[..n]), n == 0, es[n]);
            var before := Told(conn, flags, es[..n]);
            Told(conn, flags, es) == if x.Whole? then SetConnectionFlag(before, StateOf(conn, x)) else before
  {
    hide After, SetFor, SetConnectionFlag, LexOf, StateOf, StrictToken, Blocks;
    var n := |es| - 1;
    SetForWhole(conn, Told(conn, flags, es[..n]), es[n]);
  }

  lemma OneMore(conn: bool, h0: Scan, es: seq<Element>, h: Scan, e: Element)
    requires es != [] && IsToken(es[|es| - 1].word) && IsToken(e.word) && ReadList(conn, h0, es, h)
    ensures ReadsValue(h)
    ensures var r := ValueAll(h, [','] + PrintElement(e));
            r.Good? && ReadList(conn, h0, es + [e], r.scan)
  {
    var n := |es| - 1;
    assert es[n].word != [];
    hide At, ValueByte, StrictToken, Blocks, Swallows, SetConnectionFlag, StateOf, PrintElement, IsToken;
    var p := After(conn, es[..n]);
    var x := ElementLex(conn, p, n == 0, es[n]);
    ReadsAt(conn, h, x);
    StateAt(conn, h, x);
    CommaAfter(conn, h, p, n == 0, es[n], After(conn, es));
    var h1 := ValueByte(h, ',').scan;
    ElementRead(conn, h1, After(conn, es), e);
    assert [] + [','] == [','];
    ValueSnoc(h, [], ',');
    ValueAppend(h, [','], PrintElement(e));
    if conn {
      LastTells(conn, h0.flags, es);
    }
    assert (es + [e])[..n + 1] == es;
  }

  lemma StateAt(conn: bool, h: Scan, x: Lex)
    requires At(conn, h, x)
    ensures h.headerState == StateOf(conn, x)
  {
  }

  lemma PrintOneMore(es: seq<Element>, n: nat)
    requires 0 < n < |es|
    ensures PrintList(es[..n + 1]) == PrintList(es[..n]) + ([','] + PrintElement(es[n]))
  {
    hide PrintElement;
    assert es[..n + 1][..n] == es[..n];
    assert PrintList(es[..n]) + [','] + PrintElement(es[n]) == PrintList(es[..n]) + ([','] + PrintElement(es[n]));
  }

  /** `n` elements of a list have been read from behind the first letter, which the parser looks at on its own. */
  predicate ListTo(conn: bool, h0: Scan, es: seq<Element>, n: nat)
    requires IsList(es) && 1 <= n <= |es| && ReadsValue(h0)
  {
    var text := PrintList(es[..n]);
    && text != [] && text[0] == es[0].word[0]
    && ValueAll(h0, text[1..]).Good? && ReadList(conn, h0, es[..n], ValueAll(h0, text[1..]).scan)
  }

  lemma FirstText(es: seq<Element>)
    requires es != [] && es[0].before == 0 && es[0].word != []
    ensures var text := PrintList(es[..1]);
            text != [] && text[0] == es[0].word[0] && text[1..] == es[0].word[1..] + Spaces(es[0].after)
  {
    assert es[..1][0] == es[0];
    assert PrintList(es[..1]) == PrintElement(es[0]);
  }

  lemma ListFirst(conn: bool, h0: Scan, es: seq<Element>)
    requires IsList(es) && At(conn, h0, LexOf(conn, es[0].word[..1]))
    ensures ReadsValue(h0) && ListTo(conn, h0, es, 1)
  {
    ReadsAt(conn, h0, LexOf(conn, es[0].word[..1]));
    hide At, ValueByte, ValueAll, TokenChars, LexOf, ReadsValue, Blocks, Swallows, PrintList, PrintElement, Spaces, AfterSpaces;
    FirstText(es);
    assert es[..1][0] == es[0] && es[..1][..0] == [];
    AfterFirst(conn, h0, LexOf(conn, es[0].word[..1]), es[0]);
  }

  lemma ListNext(conn: bool, h0: Scan, es: seq<Element>, n: nat)
    requires IsList(es) && 1 <= n < |es| && ReadsValue(h0) && ListTo(conn, h0, es, n)
    ensures ListTo(conn, h0, es, n + 1)
  {
    hide TokenChars, PrintList, PrintElement, ReadList, ValueAll, ReadsValue;
    assert IsToken(es[n].word) && IsToken(es[n - 1].word) && es[0].word != [];
    PrintOneMore(es, n);
    var before, more := PrintList(es[..n]), [','] + PrintElement(es[n]);
    assert es[..n + 1] == es[..n] + [es[n]] && (before + more)[1..] == before[1..] + more;
    hide IsToken, IsList;
    OneMore(conn, h0, es[..n], ValueAll(h0, before[1..]).scan, es[n]);
    ValueAppend(h0, before[1..], more);
  }

  lemma {:induction false} ListRead(conn: bool, h0: Scan, es: seq<Element>, n: nat)
    requires IsList(es) && 1 <= n <= |es| && At(conn, h0, LexOf(conn, es[0].word[..1]))
    ensures ReadsValue(h0) && ListTo(conn, h0, es, n)
    decreases n
  {
    if n == 1 {
      hide ListTo;
      ListFirst(conn, h0, es);
    } else {
      hide ListTo, At, LexOf;
      ListRead(conn, h0, es, n - 1);
      ListNext(conn, h0, es, n - 1);
    }
  }
}
