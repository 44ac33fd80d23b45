/** What a list of header fields says about its message, and what the parser makes of it. */
module HttpFields {
  import opened Wrappers
  import opened HttpTypes
  import opened HttpMachine
  import opened HttpBatch
  import opened HttpNumbers
  import opened HttpHeaderNames
  import opened HttpHeaderLists
  import opened HttpHeaders

  // ----- what a list of header fields says

  /** Some header field has the property. */
  ghost predicate Any(hs: seq<Header>, p: Header -> bool) { exists i: nat :: i < |hs| && p(hs[i]) }

  lemma AnyFirst(hs: seq<Header>, p: Header -> bool)
    requires hs != []
    ensures Any(hs, p) <==> p(hs[0]) || Any(hs[1..], p)
  {
    if i: nat :| i < |hs| && p(hs[i]) {
      if i > 0 {
        assert hs[1..][i - 1] == hs[i];
      }
    }
    if i: nat :| i < |hs[1..]| && p(hs[1..][i]) {
      assert hs[i + 1] == hs[1..][i];
    }
  }

  predicate NamesCoding(h: Header) { KindOf(h.name).CodingKind? }

  /** The transfer codings of all Transfer-Encoding fields, in the order they were applied in. */
  function Codings(hs: seq<Header>): seq<Element> {
    if hs == [] then []
    else (if NamesCoding(hs[0]) && hs[0].value.List? then hs[0].value.elements else []) + Codings(hs[1..])
  }

  /** The final transfer coding is chunked. */
  predicate FinalChunked(hs: seq<Header>) {
    var es := Codings(hs);
    es != [] && Is(es[|es| - 1].word, "chunked")
  }

  predicate HasLength(h: Header) { h.value.Length? && AllDigits(h.value.digits) }

  /** The number of the first Content-Length field. */
  function LengthOf(hs: seq<Header>): Option<nat> {
    if hs == [] then None
    else if HasLength(hs[0]) then Some(Decimal(0, hs[0].value.digits))
    else LengthOf(hs[1..])
  }

  // ----- what the parser goes by

  /** The name begins with transfer-encoding. */
  predicate BeginsCoding(h: Header) { FlagsAfterName(NO_FLAGS, h.name).transferEncoding }

  /** A Transfer-Encoding field that ends with chunked, as far as the parser hears it. */
  predicate HeardChunked(h: Header) { NamesCoding(h) && h.value.List? && EndsChunked(h.value.elements) }

  predicate NamesUpgrade(h: Header) { KindOf(h.name).UpgradeKind? && h.value.Text? && h.value.text != [] }

  /** The message asks for another protocol. */
  ghost predicate AsksUpgrade(kind: ParserType, verb: nat, code: nat, hs: seq<Header>) {
    if Any(hs, NamesUpgrade) && SaysToken(hs, "upgrade") then kind == Request || code == 101 else verb == CONNECT
  }

  // ----- what the header fields say about the connection

  /** Some Connection header field of the block has a token that is heard. */
  ghost predicate SaysToken(hs: seq<Header>, known: string) {
    exists i: nat :: i < |hs| && TokenIn(hs[i], known)
  }

  ghost predicate TokenIn(h: Header, known: string) {
    h.value.List? && KindOf(h.name).ConnectionKind? && Mentions(true, h.value.elements, known)
  }

  lemma SaysFirst(hs: seq<Header>, known: string)
    requires hs != []
    ensures SaysToken(hs, known) <==> TokenIn(hs[0], known) || SaysToken(hs[1..], known)
  {
    hide TokenIn;
    if SaysToken(hs, known) && !TokenIn(hs[0], known) {
      var i: nat :| i < |hs| && TokenIn(hs[i], known);
      assert hs[1..][i - 1] == hs[i];
    }
    if SaysToken(hs[1..], known) {
      var i: nat :| i < |hs[1..]| && TokenIn(hs[1..][i], known);
      assert hs[i + 1] == hs[1..][i];
    }
  }

  lemma HeedSays(b: Block, h: Header)
    requires IsHeader(h) && Heed(b, h).Heeded?
    ensures var flags := Heed(b, h).block.flags;
            && flags.connectionClose == (b.flags.connectionClose || TokenIn(h, "close"))
            && flags.connectionKeepAlive == (b.flags.connectionKeepAlive || TokenIn(h, "keep-alive"))
  {
    hide IsHeader, KindOf, EndsChunked, Told, Decimal, Mentions;
    if h.value.List? {
      ToldMeans(FlagsAfterName(b.flags, h.name), h.value.elements);
    }
  }

  lemma {:induction false} BlockSays(b: Block, hs: seq<Header>)
    requires forall i :: 0 <= i < |hs| ==> IsHeader(hs[i])
    requires HeedAll(b, hs).Heeded?
    ensures var flags := HeedAll(b, hs).block.flags;
            && flags.connectionClose == (b.flags.connectionClose || SaysToken(hs, "close"))
            && flags.connectionKeepAlive == (b.flags.connectionKeepAlive || SaysToken(hs, "keep-alive"))
    decreases |hs|
  {
    hide IsHeader, Heed, TokenIn;
    if hs != [] {
      HeedSays(b, hs[0]);
      BlockSays(Heed(b, hs[0]).block, hs[1..]);
      SaysFirst(hs, "close");
      SaysFirst(hs, "keep-alive");
    }
  }

  // ----- the flags behind a header block

  /** What the flags and the length mean behind header fields that were read from a start line on. */
  ghost predicate Means(b: Block, hs: seq<Header>) {
    && b.flags.transferEncoding == Any(hs, BeginsCoding) && b.flags.chunked == Any(hs, HeardChunked)
    && b.flags.upgrade == Any(hs, NamesUpgrade) && b.flags.connectionUpgrade == SaysToken(hs, "upgrade")
    && b.flags.contentLength == LengthOf(hs).Some?
    && b.length == (if LengthOf(hs).Some? then LengthOf(hs).value else ULLONG_MAX)
    && (LengthOf(hs).Some? ==> LengthOf(hs).value <= MAX_DECIMAL)
  }

  /** One header field. */
  lemma HeedMeans(b: Block, h: Header)
    requires IsHeader(h) && Heed(b, h).Heeded?
    ensures var r := Heed(b, h).block;
            && r.flags.transferEncoding == (b.flags.transferEncoding || BeginsCoding(h))
            && r.flags.chunked == (b.flags.chunked || HeardChunked(h))
            && r.flags.upgrade == (b.flags.upgrade || NamesUpgrade(h))
            && r.flags.connectionUpgrade == (b.flags.connectionUpgrade || TokenIn(h, "upgrade"))
            && r.flags.contentLength == (b.flags.contentLength || HasLength(h))
            && (if HasLength(h) then !b.flags.contentLength && r.length == Decimal(0, h.value.digits) <= MAX_DECIMAL
                else r.length == b.length)
  {
    hide IsHeader, KindOf, EndsChunked, Told, Decimal, Mentions;
    HeaderShape(h);
    if h.value.List? {
      ToldMeans(FlagsAfterName(b.flags, h.name), h.value.elements);
    }
  }

  /** The name and the value of a header field go together. */
  lemma HeaderShape(h: Header)
    requires IsHeader(h)
    ensures h.value.List? ==> KindOf(h.name).ConnectionKind? || KindOf(h.name).CodingKind?
    ensures h.value.Length? ==> KindOf(h.name).LengthKind? && HasLength(h)
  {
    hide KindOf, IsList, AllDigits, HeaderChars;
  }

  lemma {:induction false} BlockMeans(b: Block, hs: seq<Header>)
    requires forall i :: 0 <= i < |hs| ==> IsHeader(hs[i])
    requires HeedAll(b, hs).Heeded?
    ensures var r := HeedAll(b, hs).block;
            && r.flags.transferEncoding == (b.flags.transferEncoding || Any(hs, BeginsCoding))
            && r.flags.chunked == (b.flags.chunked || Any(hs, HeardChunked))
            && r.flags.upgrade == (b.flags.upgrade || Any(hs, NamesUpgrade))
            && r.flags.connectionUpgrade == (b.flags.connectionUpgrade || SaysToken(hs, "upgrade"))
            && r.flags.contentLength == (b.flags.contentLength || LengthOf(hs).Some?)
            && (if LengthOf(hs).Some? then !b.flags.contentLength && r.length == LengthOf(hs).value <= MAX_DECIMAL
                else r.length == b.length)
    decreases |hs|
  {
    hide IsHeader, Heed, TokenIn, SaysToken, Any, BeginsCoding, HeardChunked, NamesUpgrade, Decimal;
    if hs == [] {
      NoneSay();
    } else {
      HeedMeans(b, hs[0]);
      BlockMeans(Heed(b, hs[0]).block, hs[1..]);
      SaysFirst(hs, "upgrade");
      AnyFirst(hs, BeginsCoding);
      AnyFirst(hs, HeardChunked);
      AnyFirst(hs, NamesUpgrade);
    }
  }

  lemma NoneSay()
    ensures !SaysToken([], "upgrade") && forall p: Header -> bool :: !Any([], p)
  {
  }
}
