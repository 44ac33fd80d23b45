/** The tables of the parser in literal characters: tokens, URL characters, digits, and methods. */
module HttpCharacters {
  import opened HttpTypes
  import opened HttpMachine
  import opened HttpNumbers
  import opened HttpHeaderLists
  import opened HttpMessages
  import HttpUrl
  import HttpUrlText

  const LOWER := "abcdefghijklmnopqrstuvwxyz"
  const UPPER := "ABCDEFGHIJKLMNOPQRSTUVWXYZ"
  const DIGITS := "0123456789"

  lemma LowerRange(c: Byte)
    ensures c in LOWER <==> 'a' <= c <= 'z'
  {
    if 'a' <= c <= 'z' {
      assert LOWER[c as int - 'a' as int] == c;
    }
  }

  lemma UpperRange(c: Byte)
    ensures c in UPPER <==> 'A' <= c <= 'Z'
  {
    if 'A' <= c <= 'Z' {
      assert UPPER[c as int - 'A' as int] == c;
    }
  }

  lemma DigitRange(c: Byte)
    ensures c in DIGITS <==> '0' <= c <= '9'
  {
    if '0' <= c <= '9' {
      assert DIGITS[c as int - '0' as int] == c;
    }
  }

  lemma Ranges(c: Byte)
    ensures c in LOWER <==> 'a' <= c <= 'z'
    ensures c in UPPER <==> 'A' <= c <= 'Z'
    ensures c in DIGITS <==> '0' <= c <= '9'
  {
    LowerRange(c);
    UpperRange(c);
    DigitRange(c);
  }

  /** The characters of a token are those of section 3.2.6 of RFC 7230; the space is one as well, but in header
      names only. */
  lemma TokenCharacters(c: Byte)
    ensures StrictToken(c) != '\0' <==> c in "!#$%&'*+-.^_`|~" || c in DIGITS || c in LOWER || c in UPPER
    ensures Token(c) != '\0' <==> StrictToken(c) != '\0' || c == ' '
  {
    Ranges(c);
  }

  /** Letters are compared in lower case. */
  lemma TokenCases(i: nat)
    requires i < 26
    ensures Token(UPPER[i]) == Token(LOWER[i]) == LOWER[i]
  {
    assert UPPER[i] == ('A' as int + i) as char && LOWER[i] == ('a' as int + i) as char;
  }

  /** The characters of a path: of US-ASCII, all that are printed but '#', '?' and the space, and two controls. */
  lemma UrlCharacters(c: Byte)
    ensures IsUrlChar(c) <==>
            || c in "!\"$%&'()*+,-./:;<=>@[\\]^_`{|}~" || c in DIGITS || c in LOWER || c in UPPER
            || c == '\t' || c as int == 12 || c as int >= 128
  {
    Ranges(c);
  }

  /** The characters of a host name, of user information, of a zone, and of a header value. */
  lemma OtherCharacters(c: Byte)
    ensures IsHostChar(c) <==> c in LOWER || c in UPPER || c in DIGITS || c in "-._"
    ensures IsUserinfoChar(c) <==> c in LOWER || c in UPPER || c in DIGITS || c in "-_.!~*'()" || c in "%;:&=+$,"
    ensures HttpUrl.IsZoneChar(c) <==> c in LOWER || c in UPPER || c in DIGITS || c in "%.-_~"
    ensures IsHex(c) <==> c in DIGITS || c in "abcdef" || c in "ABCDEF"
    ensures IsHeaderChar(c) <==> c == '\t' || c == '\n' || c == '\r' || (32 <= c as int && c as int != 127)
  {
    Ranges(c);
  }

  /** Tokens in lists are compared in any case. */
  lemma ListWords()
    ensures Is("Close", "close") && Is("KEEP-ALIVE", "keep-alive") && Is("uPGRADE", "upgrade") && Is("Chunked", "chunked")
    ensures !Is("closed", "close") && !Is("clos", "close") && !Is("cloze", "close")
  {
    assert Lower("cloze"[3]) != "close"[3];
  }

  /** The characters of section 3.3 of RFC 3986. */
  predicate IsPathChar(c: Byte) {
    c in LOWER || c in UPPER || c in DIGITS || c in "-._~" || c in "!$&'()*+,;=" || c in ":@" || c == '%'
  }

  lemma PathChar(c: Byte)
    requires IsPathChar(c) || c == '/' || c == '?'
    ensures c != ' ' && c != CR && c != LF
    ensures IsPathChar(c) || c == '/' ==> ParseUrlChar(ReqPath, c) == ReqPath
    ensures ParseUrlChar(ReqQueryStringStart, c) == ParseUrlChar(ReqQueryString, c) == ReqQueryString
  {
    PathCharIsUrl(c);
    hide IsUrlChar, IsPathChar;
  }

  lemma PathCharIsUrl(c: Byte)
    ensures IsPathChar(c) || c == '/' ==> IsUrlChar(c) && c != ' ' && c != CR && c != LF
  {
    Ranges(c);
  }

  /** Every path of these characters, with or without a query of these, and the asterisk, is a target of all
      methods but CONNECT. */
  lemma PathTarget(verb: nat, path: Bytes, query: Bytes)
    requires verb < METHODS && MethodName(verb) != "CONNECT"
    requires forall i | 0 <= i < |path| :: IsPathChar(path[i]) || path[i] == '/'
    requires forall i | 0 <= i < |query| :: IsPathChar(query[i]) || query[i] == '/' || query[i] == '?'
    ensures IsTarget(verb, "/" + path) && NoGaps("/" + path)
    ensures IsTarget(verb, "/" + path + "?" + query) && NoGaps("/" + path + "?" + query)
    ensures IsTarget(verb, "*") && NoGaps("*")
  {
    hide ParseUrlChar, HttpUrl.UrlState, HttpUrl.UrlLabels, IsPathChar;
    assert verb != CONNECT by {
      assert MethodName(CONNECT) == "CONNECT";
    }
    FirstPath();
    forall i | 0 <= i < |path|
      ensures ParseUrlChar(ReqPath, path[i]) == ReqPath && path[i] != ' ' && path[i] != CR && path[i] != LF
    {
      PathChar(path[i]);
    }
    forall i | 0 <= i < |query|
      ensures query[i] != ' ' && query[i] != CR && query[i] != LF
      ensures ParseUrlChar(ReqQueryStringStart, query[i]) == ParseUrlChar(ReqQueryString, query[i]) == ReqQueryString
    {
      PathChar(query[i]);
    }
    HttpUrlText.UrlOne(ReqSpacesBeforeUrl, '/');
    HttpUrlText.UrlOne(ReqSpacesBeforeUrl, '*');
    StaysInPath(path);
    HttpUrlText.UrlConcat(ReqSpacesBeforeUrl, "/", path);
    HttpUrlText.UrlOne(ReqPath, '?');
    HttpUrlText.UrlConcat(ReqSpacesBeforeUrl, "/" + path, "?");
    HttpUrlText.UrlConcat(ReqSpacesBeforeUrl, "/" + path + "?", query);
    StaysInQuery(query);
  }

  lemma FirstPath()
    ensures ParseUrlChar(ReqSpacesBeforeUrl, '/') == ParseUrlChar(ReqSpacesBeforeUrl, '*') == ReqPath
    ensures ParseUrlChar(ReqPath, '?') == ReqQueryStringStart
  {
  }

  lemma StaysInPath(path: Bytes)
    requires forall i | 0 <= i < |path| :: ParseUrlChar(ReqPath, path[i]) == ReqPath
    ensures HttpUrl.UrlState(ReqPath, path) == ReqPath
  {
    hide ParseUrlChar, HttpUrl.UrlState, HttpUrl.UrlLabels;
    if path == [] {
      HttpUrlText.UrlNone(ReqPath);
    } else {
      HttpUrlText.UrlRun(ReqPath, ReqPath, path);
    }
  }

  lemma StaysInQuery(query: Bytes)
    requires forall i | 0 <= i < |query| ::
      ParseUrlChar(ReqQueryStringStart, query[i]) == ParseUrlChar(ReqQueryString, query[i]) == ReqQueryString
    ensures HttpUrl.UrlState(ReqQueryStringStart, query) == ReqQueryStringStart
            || HttpUrl.UrlState(ReqQueryStringStart, query) == ReqQueryString
  {
    hide ParseUrlChar, HttpUrl.UrlState, HttpUrl.UrlLabels;
    if query == [] {
      HttpUrlText.UrlNone(ReqQueryStringStart);
    } else {
      HttpUrlText.UrlRun(ReqQueryStringStart, ReqQueryString, query);
    }
  }

  // ----- numbers

  /** The values of the digits, decimal and hexadecimal. */
  lemma DigitValues(i: nat)
    requires i < 10
    ensures IsNum(DIGITS[i]) && Digit(DIGITS[i]) == i && Unhex(DIGITS[i]) == i
    ensures i < 6 ==> Unhex("abcdef"[i]) == Unhex("ABCDEF"[i]) == 10 + i
  {
  }

  /** Numbers are read from the left. */
  lemma Numerals()
    ensures AllDigits("9075") && Decimal(0, "9075") == 9075
    ensures AllHex("9aF3") && Hexadecimal(0, "9aF3") == 0x9AF3
    ensures MAX_DECIMAL == 18446744073709551609 && MAX_HEX == 0x1_0000_0000_0000_0000 - 17
  {
    assert "9075"[..3] == "907" && "907"[..2] == "90" && "90"[..1] == "9" && "9"[..0] == "";
    assert "9aF3"[..3] == "9aF" && "9aF"[..2] == "9a" && "9a"[..1] == "9";
  }

  // ----- methods

  /** The methods by their numbers. */
  lemma MethodNumbers()
    ensures METHODS == 34
    ensures MethodName(0) == "DELETE" && MethodName(1) == "GET" && MethodName(2) == "HEAD"
    ensures MethodName(3) == "POST" && MethodName(4) == "PUT" && MethodName(5) == "CONNECT"
    ensures MethodName(6) == "OPTIONS" && MethodName(7) == "TRACE" && MethodName(8) == "COPY"
    ensures MethodName(9) == "LOCK" && MethodName(10) == "MKCOL" && MethodName(11) == "MOVE"
    ensures MethodName(12) == "PROPFIND" && MethodName(13) == "PROPPATCH" && MethodName(14) == "SEARCH"
    ensures MethodName(15) == "UNLOCK" && MethodName(16) == "BIND" && MethodName(17) == "REBIND"
    ensures MethodName(18) == "UNBIND" && MethodName(19) == "ACL" && MethodName(20) == "REPORT"
    ensures MethodName(21) == "MKACTIVITY" && MethodName(22) == "CHECKOUT" && MethodName(23) == "MERGE"
    ensures MethodName(24) == "M-SEARCH" && MethodName(25) == "NOTIFY" && MethodName(26) == "SUBSCRIBE"
    ensures MethodName(27) == "UNSUBSCRIBE" && MethodName(28) == "PATCH" && MethodName(29) == "PURGE"
    ensures MethodName(30) == "MKCALENDAR" && MethodName(31) == "LINK" && MethodName(32) == "UNLINK"
    ensures MethodName(33) == "SOURCE"
  {
  }
}
