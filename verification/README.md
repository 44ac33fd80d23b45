# Stad, verified

Dafny models of the parts of Stad and of the libraries it ships whose behaviour is hardest to see from
reading one function, and proofs about all their inputs and runs:

* **The incremental HTTP/1.x parser** (`Http*.dfy`). `HttpMachine` is the parser as a machine that takes one
  byte per step; `HttpExecute` is the C function, an object that is handed any piece of input, with its
  batched loops, its marks and its re-executed bytes, and refines the machine. On the machine rest split
  invariance, the reachable-state invariant and termination; and, against what RFC 7230 writes, the
  recognition of methods, targets, header names and header values, and whole requests and responses, printed
  and reported. `HttpStandard` sets the framing of bodies against the rules of that standard, and `HttpKeepAlive`
  says when the connection is kept. `HttpCharacters` and `HttpExamples` are in literal characters. `HttpUrl` and
  `HttpUrlText` are the URL splitter. The build is the non-strict one, without lenient headers.
* **SHA-1** (`Sha1*.dfy`): FIPS PUB 180-1 as functions, the streaming context over a 64-byte array, and the
  worked examples of the standard.
* **ByteBuffer** (`ByteBuffer*.dfy`, `NextPowerOfTwo.dfy`): buffers over shared storage. Reference counts are
  tied to a ghost set of owners; a `world` is the set of all buffers that exist. Every operation leaves all
  other buffers of the world as they are, and `ByteBufferRuns` lifts that to programs over many variables.
* **The protobuf messages** (`Proto*.dfy`): the wire format, the six messages as values, and the generated
  classes with their four loops each, which must agree.
* **ChannelPipeline** (`ChannelPipeline.dfy`): linked contexts between two sentinels.
* **The type collector and the analyzer** (`TypeCollector.dfy`, `StadOrder.dfy`, `StadAnalyzer.dfy`): a search
  over an abstract finite table of types, the order in which models are built from what it collects and when
  that ends, and the models built and linked.

What the environment decides is a parameter: the answer of the headers-complete callback, the type table, the
underestimated count of a sequence, whether a symbol is in metadata.

## Where the code does something else than one expects

The models follow the code. These are its surprises, each visible in a statement below.

* Bytes from 0x80 up count as the hexadecimal digit 0 in a chunk size (`HttpNumbers.HexCharacters`).
* In a Connection or Transfer-Encoding list, the comma behind a proper beginning of a known token, and behind
  `chunked`, is swallowed with the element after it; a later element that begins with `_` makes the parser
  ignore the rest (`HttpHeaderLists.AllHeard`, `HttpHeaderLists.CloseUnheard`).
* A header whose name only begins with `transfer-encoding` sets the flag of that header
  (`HttpHeaderNames.HeaderName`).
* HTTP/2.0 is treated like HTTP/1.0 when the connection is kept (`HttpKeepAlive.KeepsConnection`).
* Behind a 1xx, 204 or 304 response the connection is kept even if the body is read until close
  (`HttpKeepAlive.OpenButKept`).
* Bodies are not always framed as section 3.3.3 of RFC 7230 says; `HttpStandard.FollowsStandard` has the exact
  condition. A 1xx, 204 or 304 response with a Content-Length is read with a body unless the callback says
  otherwise (`HttpStandard.NoContentIsRead`). Nothing clears the chunked flag within a message (it is only set,
  at c_nio_http_parser.c:1737 and 1774), so chunked counts even when it is not the final coding
  (`HttpStandard.ChunkedThenGzip`). A request with a longer name that begins with `transfer-encoding` is refused
  (`HttpStandard.LongerNameIsRefused`).
* The trailer of a chunked body, its empty line included, stays counted against the header limit of the next
  message, and its Connection fields decide with the others whether the connection is kept
  (`HttpExchange.ReadRequests`, `HttpKeepAlive.KeepsConnection`).
* A slice past 16 MiB of a buffer that is itself a slice has the wrong bytes (`ByteBuffers.RightSlice`).
* Adding several handlers before one that is among them does not keep their order
  (`ChannelPipelines.BlockTornApart`).
* Without `disallowInternal` private types pass the accessibility gate (`TypeCollectors.IsAllowAccessibility`).
* A type that has, directly or through others, a member of its own type makes `MakeStadModel` call itself without
  end (`StadOrders.SelfReference`, `StadOrders.Ends`).
* `MakeDataSetModel` throws for every member whose type is an enumeration (`StadAnalyzers.LookupFails`).

## Model

| member | source | states |
|---|---|---|
| HttpInvariant.OnceKeeps | Stad.macOS/Pods/CNIOHTTPParser/Sources/CNIOHTTPParser/c_nio_http_parser.c:713-2132 | every transition of the byte machine leads from a reachable parser to a reachable one: the header substate is legal for the outer state, chunk states have the chunked flag, a body length lies strictly between 0 and the sentinel (all that the C code asserts); looking at the same byte again lowers a rank, so every call ends |
| HttpInvariant.OnceSpans | Stad.macOS/Pods/CNIOHTTPParser/Sources/CNIOHTTPParser/c_nio_http_parser.c:2118-2138 | in every transition at most one data mark is open, and no callback runs while one is |
| HttpBatch.ScanField | Stad.macOS/Pods/CNIOHTTPParser/Sources/CNIOHTTPParser/c_nio_http_parser.c:1254-1380 | the header-name loop, with its fast skip, stops at the first byte that is no token and leaves the scan that the bytes leave one by one |
| HttpBatch.ScanValue | Stad.macOS/Pods/CNIOHTTPParser/Sources/CNIOHTTPParser/c_nio_http_parser.c:1480-1697 | the header-value loop leaves the scan that the bytes leave one by one, up to a line break, a refused byte or the end; only past the header limit is a byte passed over unseen |
| HttpBatch.RunField | Stad.macOS/Pods/CNIOHTTPParser/Sources/CNIOHTTPParser/c_nio_http_parser.c:1254-1389 | a run over name bytes is one scan, or overflows at the byte that exceeds the header limit |
| HttpBatch.RunValue | Stad.macOS/Pods/CNIOHTTPParser/Sources/CNIOHTTPParser/c_nio_http_parser.c:1480-1704 | the same for value bytes |
| HttpBatch.RunIdentity | Stad.macOS/Pods/CNIOHTTPParser/Sources/CNIOHTTPParser/c_nio_http_parser.c:1937-1972 | skipping part of a body of known length at once is taking its bytes one by one |
| HttpBatch.RunIdentityEof | Stad.macOS/Pods/CNIOHTTPParser/Sources/CNIOHTTPParser/c_nio_http_parser.c:1974-1978 | the same for a body that ends with the connection |
| HttpBatch.RunChunkData | Stad.macOS/Pods/CNIOHTTPParser/Sources/CNIOHTTPParser/c_nio_http_parser.c:2071-2092 | the same for the data of a chunk |
| HttpExecute.HttpParser.Execute | Stad.macOS/Pods/CNIOHTTPParser/Sources/CNIOHTTPParser/c_nio_http_parser.c:644-2148 | one call, with its batched fast paths, marks and `goto reexecute`, refines the run of the machine that takes one byte per step: same parser, same error or none, same number of bytes taken, and the same callbacks once adjacent data is joined |
| HttpSplit.TwoCalls | Stad.macOS/Pods/CNIOHTTPParser/Sources/CNIOHTTPParser/c_nio_http_parser.c:644-2148 | split invariance: if one call on a ++ b takes everything, calls on a and then on b do, leave the same parser, and make the same callbacks up to where data is cut |
| HttpSplit.ExecuteAll | Stad.macOS/Pods/CNIOHTTPParser/Sources/CNIOHTTPParser/c_nio_http_parser.c:644-2148 | the same for any number of pieces, against the run over their concatenation; the two sides also fail together |
| HttpNumbers.ContentLengthValue | Stad.macOS/Pods/CNIOHTTPParser/Sources/CNIOHTTPParser/c_nio_http_parser.c:1540-1568 | a Content-Length is accepted exactly up to 18446744073709551609, and is then the decimal number written: no wrap-around, never the sentinel |
| HttpFraming.RunSize | Stad.macOS/Pods/CNIOHTTPParser/Sources/CNIOHTTPParser/c_nio_http_parser.c:1989-2040 | a chunk size is accepted exactly up to 2^64 - 17, and is then the hexadecimal number written |
| HttpNumbers.HexCharacters | Stad.macOS/Pods/CNIOHTTPParser/Sources/CNIOHTTPParser/c_nio_http_parser.c:227-244 | the chunk size characters are the hexadecimal digits and, because only half of the table is written out, all bytes from 0x80 up, which count as 0 |
| HttpExchange.ChunkedBody | Stad.macOS/Pods/CNIOHTTPParser/Sources/CNIOHTTPParser/c_nio_http_parser.c:1989-2109 | any chunks printed as in section 4.1 of RFC 7230, a last chunk and any header fields behind it are reported as exactly these chunks, these fields and one message-complete; the count of header bytes behind it is that of the trailer, and its Connection fields count for the message |
| HttpFraming.IdentityBody | Stad.macOS/Pods/CNIOHTTPParser/Sources/CNIOHTTPParser/c_nio_http_parser.c:1937-1987 | a body of known length n > 0 is reported as exactly its n bytes, and then the message is complete |
| HttpMethods.RunMethod | Stad.macOS/Pods/CNIOHTTPParser/Sources/CNIOHTTPParser/c_nio_http_parser.c:926-1020 | every one of the 34 methods is recognised although the parser only keeps one candidate and changes it on the way |
| HttpMethods.MethodRecognised | Stad.macOS/Pods/CNIOHTTPParser/Sources/CNIOHTTPParser/c_nio_http_parser.c:926-1020 | a word and a space are taken if and only if the word is one of the methods, and then it is that method |
| HttpHeaderNames.HeaderName | Stad.macOS/Pods/CNIOHTTPParser/Sources/CNIOHTTPParser/c_nio_http_parser.c:1204-1389 | a header name is reported whole, and is taken for Connection, Content-Length, Transfer-Encoding or Upgrade if and only if it is that name, in any case, spaces allowed behind it; the transfer-encoding flag is set exactly when the name begins with those letters |
| HttpHeaderLists.ListRead | Stad.macOS/Pods/CNIOHTTPParser/Sources/CNIOHTTPParser/c_nio_http_parser.c:1577-1697 | reading a printed token list leaves the scanner where the last element, heard or not, puts it, with the flags of the elements before |
| HttpHeaderLists.ToldMeans | Stad.macOS/Pods/CNIOHTTPParser/Sources/CNIOHTTPParser/c_nio_http_parser.c:1612-1690 | the flags after a Connection list are exactly those of the known tokens that are heard in it |
| HttpHeaderLists.AllHeard | Stad.macOS/Pods/CNIOHTTPParser/Sources/CNIOHTTPParser/c_nio_http_parser.c:1577-1690 | every element of a list is heard if and only if none but the first begins with `_` and none but the last swallows its comma |
| HttpHeaderLists.CloseUnheard | Stad.macOS/Pods/CNIOHTTPParser/Sources/CNIOHTTPParser/c_nio_http_parser.c:1642-1651 | a list RFC 7230 allows, `c, close`, does not mark the connection to close |
| HttpHeaders.LengthRefused | Stad.macOS/Pods/CNIOHTTPParser/Sources/CNIOHTTPParser/c_nio_http_parser.c:1434-1568 | a second Content-Length, or one that is too large, stops the parser with the error for it |
| HttpHeaders.HeaderLine | Stad.macOS/Pods/CNIOHTTPParser/Sources/CNIOHTTPParser/c_nio_http_parser.c:1204-1790 | a header field is reported as it was written, and the parser takes from it exactly what it says about length, coding, connection and upgrade, or refuses it |
| HttpHeaders.HeaderBlock | Stad.macOS/Pods/CNIOHTTPParser/Sources/CNIOHTTPParser/c_nio_http_parser.c:1204-1790 | a header block of any length: the parser goes on behind it as all fields say, or stops with the error of the first field that is refused |
| HttpMessages.Target | Stad.macOS/Pods/CNIOHTTPParser/Sources/CNIOHTTPParser/c_nio_http_parser.c:1022-1093 | a request target and a space are taken if and only if the URL automaton accepts the target and does not stop inside a schema or before a host; otherwise the error is an invalid URL |
| HttpMessages.ReadRequestLine | Stad.macOS/Pods/CNIOHTTPParser/Sources/CNIOHTTPParser/c_nio_http_parser.c:926-1202 | method, target and version are read back from a printed request line |
| HttpMessages.ReadStatusLine | Stad.macOS/Pods/CNIOHTTPParser/Sources/CNIOHTTPParser/c_nio_http_parser.c:769-924 | version, three-digit code and reason are read back from a printed status line |
| HttpExchange.HeadEnd | Stad.macOS/Pods/CNIOHTTPParser/Sources/CNIOHTTPParser/c_nio_http_parser.c:1793-1935 | the empty line ends the head: length and coding together refused, another protocol, no body, chunked, fixed length or until close, in the order in which the code asks, with the answer of the headers-complete callback |
| HttpExchange.RequestInfo | Stad.macOS/Pods/CNIOHTTPParser/Sources/CNIOHTTPParser/c_nio_http_parser.c:1816-1842 | what the headers-complete callback is shown of a request, field by field: kind, method, version, the Content-Length or the sentinel, whether another protocol is asked for, and every flag as its condition on the header fields |
| HttpExchange.ResponseInfo | Stad.macOS/Pods/CNIOHTTPParser/Sources/CNIOHTTPParser/c_nio_http_parser.c:1816-1842 | the same for a response, with the number that the three digits of its status are |
| HttpFields.BlockMeans | Stad.macOS/Pods/CNIOHTTPParser/Sources/CNIOHTTPParser/c_nio_http_parser.c:1204-1790 | what the parser goes by behind any header block, as statements about the list of fields: some name that begins with transfer-encoding, some Transfer-Encoding list heard to end with chunked, some Upgrade field, `upgrade` heard in some Connection field, the number of the Content-Length |
| HttpFields.BlockSays | Stad.macOS/Pods/CNIOHTTPParser/Sources/CNIOHTTPParser/c_nio_http_parser.c:1612-1742 | and `close` or `keep-alive` heard in some Connection field |
| HttpStandard.FollowsStandard | Stad.macOS/Pods/CNIOHTTPParser/Sources/CNIOHTTPParser/c_nio_http_parser.c:1793-1935 | against rules 1 to 7 of section 3.3.3 of RFC 7230, written down on start line, header fields and the answer of the callback, with the final coding taken over all Transfer-Encoding fields: the parser frames the body as they say if and only if the message meets none of four conditions (it refuses more, reads a body behind a status without one, leaves a body unread, takes another coding than the final one) |
| HttpStandard.NoContentIsRead | Stad.macOS/Pods/CNIOHTTPParser/Sources/CNIOHTTPParser/c_nio_http_parser.c:1914-1921 | a 204 response with `Content-Length: 5`: five bytes of body, where the rules have none |
| HttpStandard.ChunkedThenGzip | Stad.macOS/Pods/CNIOHTTPParser/Sources/CNIOHTTPParser/c_nio_http_parser.c:1734-1738 | `Transfer-Encoding: chunked` and then `Transfer-Encoding: gzip`: read as chunks, where the rules refuse the request and read the response until close, as nothing ever clears the chunked flag |
| HttpStandard.LongerNameIsRefused | Stad.macOS/Pods/CNIOHTTPParser/Sources/CNIOHTTPParser/c_nio_http_parser.c:1335-1346 | a request with a field `Transfer-Encodings`: refused, where the rules have no body |
| HttpExchange.ReadRequest | Stad.macOS/Pods/CNIOHTTPParser/Sources/CNIOHTTPParser/c_nio_http_parser.c:926-2109 | a printed request is reported as method, target, all header fields, what the head says, the body it asks for with its trailer, and one message-complete; the parser is then ready for the next message or has left, for another protocol, behind the last byte |
| HttpExchange.ReadResponse | Stad.macOS/Pods/CNIOHTTPParser/Sources/CNIOHTTPParser/c_nio_http_parser.c:769-2109 | the same for a response; a body until close is reported and stays open |
| HttpExchange.ReceiveUntilClose | Stad.macOS/Pods/CNIOHTTPParser/Sources/CNIOHTTPParser/c_nio_http_parser.c:644-685 | a parser object handed a response with an open body, cut into calls anywhere, and then the call without data: it reports the response, and message-complete with that last call |
| HttpKeepAlive.ShownRequestKeeps | Stad.macOS/Pods/CNIOHTTPParser/Sources/CNIOHTTPParser/c_nio_http_parser.c:2181-2199 | `should_keep_alive` when the callback asks at the end of the head of a request: with both version digits above 0 unless `close` is heard in a Connection field, otherwise exactly if `keep-alive` is |
| HttpKeepAlive.KeepsConnection | Stad.macOS/Pods/CNIOHTTPParser/Sources/CNIOHTTPParser/c_nio_http_parser.c:2181-2199 | and behind the request, where the Connection fields of its trailer count as well |
| HttpKeepAlive.ShownResponseKeeps | Stad.macOS/Pods/CNIOHTTPParser/Sources/CNIOHTTPParser/c_nio_http_parser.c:2152-2199 | for a response the same, and in addition a status 1xx, 204 or 304, a chunked coding, or a length without a coding |
| HttpKeepAlive.KeepsAfterResponse | Stad.macOS/Pods/CNIOHTTPParser/Sources/CNIOHTTPParser/c_nio_http_parser.c:2152-2199 | behind the response, whatever its body; an answer that there is no body counts as well |
| HttpKeepAlive.KeptAsFramed | Stad.macOS/Pods/CNIOHTTPParser/Sources/CNIOHTTPParser/c_nio_http_parser.c:2152-2178 | against the framing: in front of a body until close the connection is not kept, unless the status is 1xx, 204 or 304; in front of any other body it may be kept |
| HttpKeepAlive.OpenButKept | Stad.macOS/Pods/CNIOHTTPParser/Sources/CNIOHTTPParser/c_nio_http_parser.c:2159-2165 | a 204 response with `Transfer-Encoding: gzip`: a body until close, and the connection kept |
| HttpExchange.ReadRequests | Stad.macOS/Pods/CNIOHTTPParser/Sources/CNIOHTTPParser/c_nio_http_parser.c:926-2109 | any number of requests on one connection are all reported, in order, as they were printed; the count of header bytes is carried over from each trailer to the next request |
| HttpExchange.Receive | Stad.macOS/Pods/CNIOHTTPParser/Sources/CNIOHTTPParser/c_nio_http_parser.c:644-2148 | a parser object handed these requests cut into calls anywhere reports the same |
| HttpExchange.InitAtRest | Stad.macOS/Pods/CNIOHTTPParser/Sources/CNIOHTTPParser/c_nio_http_parser.c:2217-2226 | a new parser is one of the parsers that the invariant describes, waits for what it is to parse, and has nothing set |
| HttpExchange.ReceiveFromStart | Stad.macOS/Pods/CNIOHTTPParser/Sources/CNIOHTTPParser/c_nio_http_parser.c:644-2226 | so a new parser object reports any requests it is handed, cut into calls anywhere |
| HttpExchange.ReceiveResponseFromStart | Stad.macOS/Pods/CNIOHTTPParser/Sources/CNIOHTTPParser/c_nio_http_parser.c:644-2226 | and so does a new parser object for a response; a call without data then completes an open body and is nothing behind any other |
| HttpExamples.GetRequest | Stad.macOS/Pods/CNIOHTTPParser/Sources/CNIOHTTPParser/c_nio_http_parser.c:926-1935 | `GET / HTTP/1.1` with `Host: a`, in literal characters, and the callbacks it makes in a new parser |
| HttpExamples.ChunkedResponse | Stad.macOS/Pods/CNIOHTTPParser/Sources/CNIOHTTPParser/c_nio_http_parser.c:769-2109 | `HTTP/1.1 200 OK` with five bytes in a chunk, in literal characters, and the callbacks |
| HttpCharacters.TokenCharacters | Stad.macOS/Pods/CNIOHTTPParser/Sources/CNIOHTTPParser/c_nio_http_parser.c:192-224 | a byte is a token character if and only if it is one of section 3.2.6 of RFC 7230; the space is one in header names |
| HttpCharacters.TokenCases | Stad.macOS/Pods/CNIOHTTPParser/Sources/CNIOHTTPParser/c_nio_http_parser.c:192-224 | letters are compared in lower case |
| HttpCharacters.UrlCharacters | Stad.macOS/Pods/CNIOHTTPParser/Sources/CNIOHTTPParser/c_nio_http_parser.c:246-279 | the URL characters, one by one |
| HttpCharacters.OtherCharacters | Stad.macOS/Pods/CNIOHTTPParser/Sources/CNIOHTTPParser/c_nio_http_parser.c:421-455 | the characters of hosts, user information, zones, hexadecimal numbers and header values, one by one |
| HttpCharacters.ListWords | Stad.macOS/Pods/CNIOHTTPParser/Sources/CNIOHTTPParser/c_nio_http_parser.c:1577-1690 | tokens in lists are known in any case, and as a whole |
| HttpCharacters.PathTarget | Stad.macOS/Pods/CNIOHTTPParser/Sources/CNIOHTTPParser/c_nio_http_parser.c:496-640 | every path and query of RFC 3986 characters, and `*`, is taken as a target by all methods but CONNECT |
| HttpCharacters.DigitValues | Stad.macOS/Pods/CNIOHTTPParser/Sources/CNIOHTTPParser/c_nio_http_parser.c:227-244 | the values of the decimal and hexadecimal digits |
| HttpCharacters.Numerals | Stad.macOS/Pods/CNIOHTTPParser/Sources/CNIOHTTPParser/c_nio_http_parser.c:1540-1568 | numerals are read from the left |
| HttpCharacters.MethodNumbers | Stad.macOS/Pods/CNIOHTTPParser/Sources/CNIOHTTPParser/include/c_nio_http_parser.h:166-207 | the 34 methods by their numbers |
| HttpUrl.HttpParserUrl.SplitFields | Stad.macOS/Pods/CNIOHTTPParser/Sources/CNIOHTTPParser/c_nio_http_parser.c:2415-2489 | the first pass accepts exactly what the URL automaton accepts, and labels every byte with its field |
| HttpUrl.HttpParserUrl.ParseHost | Stad.macOS/Pods/CNIOHTTPParser/Sources/CNIOHTTPParser/c_nio_http_parser.c:2328-2408 | the second pass accepts exactly what the authority automaton accepts, and splits it into user info, host and port |
| HttpUrl.HttpParserUrl.ParsePort | Stad.macOS/Pods/CNIOHTTPParser/Sources/CNIOHTTPParser/c_nio_http_parser.c:2508-2533 | a port is accepted exactly when it fits 16 bits, and is then its decimal value |
| HttpUrl.HttpParserUrl.ParseUrl | Stad.macOS/Pods/CNIOHTTPParser/Sources/CNIOHTTPParser/c_nio_http_parser.c:2415-2536 | exactly which URLs are accepted; the fields are in bounds, disjoint, in order, separated only by delimiters, the host is not empty, and `port` is the value of the port digits |
| HttpUrlText.SplitText | Stad.macOS/Pods/CNIOHTTPParser/Sources/CNIOHTTPParser/c_nio_http_parser.c:2415-2536 | a URL put together from its parts is split into these parts again: every field that should be there is, where it should be, and its text is the part; it is refused only for a port above 65535 |
| HttpUrlText.SplitTail | Stad.macOS/Pods/CNIOHTTPParser/Sources/CNIOHTTPParser/c_nio_http_parser.c:2415-2489 | a path with query and fragment on its own, the usual request target, is always accepted and split into these |
| HttpUrlText.SplitConnect | Stad.macOS/Pods/CNIOHTTPParser/Sources/CNIOHTTPParser/c_nio_http_parser.c:2328-2536 | an authority on its own, as a CONNECT target, is accepted exactly if it is a host and a port up to 65535 without user info, and is split into these |
| Sha1.CircularSchedule | Stad.macOS/Pods/CNIOSHA1/Sources/CNIOSHA1/c_nio_sha1.c:105-186 | the sixteen-word circular buffer gives the words of the 80-word schedule: section 8 against section 7 of FIPS PUB 180-1 |
| Sha1.SwappedWords | Stad.macOS/Pods/CNIOSHA1/Sources/CNIOSHA1/c_nio_sha1.c:113-148 | a byte swap and little-endian loads are big-endian loads |
| Sha1.Sha1Context.EightyRounds | Stad.macOS/Pods/CNIOSHA1/Sources/CNIOSHA1/c_nio_sha1.c:150-177 | the four groups of twenty rounds, in place, are the eighty rounds of the standard |
| Sha1.Sha1Context.Step | Stad.macOS/Pods/CNIOSHA1/Sources/CNIOSHA1/c_nio_sha1.c:105-186 | one step compresses the block in the buffer |
| Sha1.Sha1Context.PadMessage | Stad.macOS/Pods/CNIOSHA1/Sources/CNIOSHA1/c_nio_sha1.c:203-235 | in-place padding feeds exactly the padded message of section 4, with an extra block when the length does not fit |
| Sha1.LengthWraps | Stad.macOS/Pods/CNIOSHA1/Sources/CNIOSHA1/c_nio_sha1.c:258-258 | the 64-bit bit counter holds all that the length field shows |
| Sha1.Sha1Context.Loop | Stad.macOS/Pods/CNIOSHA1/Sources/CNIOSHA1/c_nio_sha1.c:238-263 | more input is compressed block by block, the rest waits in the buffer |
| Sha1.Sha1Context.Result | Stad.macOS/Pods/CNIOSHA1/Sources/CNIOSHA1/c_nio_sha1.c:266-286 | the result is the digest of the message so far |
| Sha1.AddedIsSum | Stad.macOS/Pods/CNIOSHA1/Sources/CNIOSHA1/c_nio_sha1.c:71-79 | the constant table and the rotation of the implementation are those of the standard |
| Sha1.DigestOfPieces | Stad.macOS/Pods/CNIOSHA1/Sources/CNIOSHA1/c_nio_sha1.c:190-286 | however a message is cut into `loop` calls, init, the calls and the result give its digest |
| Sha1Vectors.AbcDigest | Stad.macOS/Pods/CNIOSHA1/Sources/CNIOSHA1/c_nio_sha1.c:71-286 | the digest of `abc` as twenty literal bytes, round by round (Appendix A of FIPS PUB 180-1) |
| Sha1Vectors.AlphabetDigest | Stad.macOS/Pods/CNIOSHA1/Sources/CNIOSHA1/c_nio_sha1.c:71-286 | and that of the message of two blocks of Appendix B |
| Sha1Vectors.ExamplesInPieces | Stad.macOS/Pods/CNIOSHA1/Sources/CNIOSHA1/c_nio_sha1.c:190-286 | the implementation gives these digests, however the messages are cut |
| ByteBuffers.ByteBuffer.Copy | Stad.macOS/Pods/SwiftNIO/Sources/NIO/ByteBuffer-core.swift:206-222 | copying a buffer shares its storage: one more reference, nothing else changes |
| ByteBuffers.ByteBuffer.CopyStorageAndRebase | Stad.macOS/Pods/SwiftNIO/Sources/NIO/ByteBuffer-core.swift:300-312 | the slice, or what is readable of it, in storage of its own |
| ByteBuffers.ByteBuffer.EnsureAvailableCapacity | Stad.macOS/Pods/SwiftNIO/Sources/NIO/ByteBuffer-core.swift:314-339 | room at an index without losing a byte of the slice |
| ByteBuffers.ByteBuffer.SetBytes | Stad.macOS/Pods/SwiftNIO/Sources/NIO/ByteBuffer-core.swift:367-384 | bytes stored at an index: this slice shows them and keeps the rest, every other buffer keeps its bytes and indices |
| ByteBuffers.ByteBuffer.SetSlowPath | Stad.macOS/Pods/SwiftNIO/Sources/NIO/ByteBuffer-core.swift:386-423 | the same for a sequence of unknown length, one byte after the other |
| ByteBuffers.ByteBuffer.ReserveCapacity | Stad.macOS/Pods/SwiftNIO/Sources/NIO/ByteBuffer-core.swift:464-479 | at least the capacity asked for; the content stays |
| ByteBuffers.ByteBuffer.CopyStorageAndRebaseIfNeeded | Stad.macOS/Pods/SwiftNIO/Sources/NIO/ByteBuffer-core.swift:492-497 | the buffer owns its storage alone; the content stays |
| ByteBuffers.ByteBuffer.SetRepeatingByte | Stad.macOS/Pods/SwiftNIO/Sources/NIO/ByteBuffer-aux.swift:395-403 | the same byte a number of times, isolated from all other buffers |
| ByteBuffers.ByteBuffer.DiscardReadBytes | Stad.macOS/Pods/SwiftNIO/Sources/NIO/ByteBuffer-core.swift:659-682 | the readable bytes move to the front, isolated from all other buffers |
| ByteBuffers.ByteBuffer.Clear | Stad.macOS/Pods/SwiftNIO/Sources/NIO/ByteBuffer-core.swift:704-711 | both indices are 0 and the memory is not smaller |
| ByteBuffers.ByteBuffer.ClearMinimum | Stad.macOS/Pods/SwiftNIO/Sources/NIO/ByteBuffer-core.swift:736-750 | the same with a minimum capacity |
| ByteBuffers.ByteBuffer.CopyBytes | Stad.macOS/Pods/SwiftNIO/Sources/NIO/ByteBuffer-core.swift:868-893 | copying readable bytes within the buffer, overlapping or not, or exactly the error for the arguments |
| ByteBuffers.ByteBuffer.GetSlice | Stad.macOS/Pods/SwiftNIO/Sources/NIO/ByteBuffer-core.swift:631-653 | a slice shares the storage and changes no other buffer; what its bytes are on the copying path past 16 MiB, as the code computes it |
| ByteBuffers.RightSlice | Stad.macOS/Pods/SwiftNIO/Sources/NIO/ByteBuffer-core.swift:631-653 | slicing gives the requested bytes if and only if the source slice starts at 0, or the new lower bound is at most 2^24 - 1, or nothing is asked for within bounds |
| ByteBuffers.WrongSlice | Stad.macOS/Pods/SwiftNIO/Sources/NIO/ByteBuffer-core.swift:639-647 | in every other case a memory that shows the wrong bytes |
| ByteBufferValues.WriteBytes | Stad.macOS/Pods/SwiftNIO/Sources/NIO/ByteBuffer-aux.swift:358-375 | written bytes are appended to the content, whatever storage is shared |
| ByteBufferValues.GetBytes | Stad.macOS/Pods/SwiftNIO/Sources/NIO/ByteBuffer-aux.swift:28-39 | exactly the readable ranges can be got, and are what was written |
| ByteBufferValues.ReadBytes | Stad.macOS/Pods/SwiftNIO/Sources/NIO/ByteBuffer-aux.swift:47-52 | reading returns the next bytes and moves past them, or changes nothing |
| ByteBufferValues.WriteBuffer | Stad.macOS/Pods/SwiftNIO/Sources/NIO/ByteBuffer-aux.swift:331-349 | one buffer takes over the readable bytes of another |
| ByteBufferViews.SetThenClose | Stad.macOS/Pods/SwiftNIO/Sources/NIO/ByteBuffer-views.swift:121-157 | storing first and closing the gap afterwards is a splice |
| ByteBufferViews.OpenThenSet | Stad.macOS/Pods/SwiftNIO/Sources/NIO/ByteBuffer-views.swift:121-157 | opening the gap first and storing afterwards is a splice |
| ByteBufferViews.ByteBufferView.ReplaceSubrange | Stad.macOS/Pods/SwiftNIO/Sources/NIO/ByteBuffer-views.swift:121-157 | the view becomes the splice of its old bytes in all three length cases; the buffer outside the view, and every other buffer, stay; the forced copy cannot fail |
| ByteBufferRuns.Program.Step | Stad.macOS/Pods/SwiftNIO/Sources/NIO/ByteBuffer-core.swift:300-423 | one operation on any of several variables that share storage is the operation on pure values, whose cells past the writer index are part of the value as far as they are known |
| ByteBufferRuns.Program.Run | Stad.macOS/Pods/SwiftNIO/Sources/NIO/ByteBuffer-core.swift:300-893 | so is every sequence of them: copy-on-write isolation over whole runs, with the index moves over bytes stored past the writer |
| ByteBufferRuns.SetThenMove | Stad.macOS/Pods/SwiftNIO/Sources/NIO/ByteBuffer-aux.swift:358-375 | storing bytes at the writer index and then moving it over them is writing them |
| ByteBufferRuns.ContentDetermined | Stad.macOS/Pods/SwiftNIO/Sources/NIO/ByteBuffer-core.swift:300-893 | where the cells before the writer index are known, the value leaves no choice for the content of the buffer |
| NextPowerOfTwo.NextPowerOf2ClampedToMax | Stad.macOS/Pods/SwiftNIO/Sources/NIO/ByteBuffer-int.swift:115-146 | smearing bits gives a power of two not below the number whose half is, or all ones |
| NextPowerOfTwo.WordAndNumber | Stad.macOS/Pods/SwiftNIO/Sources/NIO/ByteBuffer-int.swift:115-146 | for every 32-bit word, what the smearing gives is what the buffer operations compute on numbers |
| NextPowerOfTwo.NextIsLeast | Stad.macOS/Pods/SwiftNIO/Sources/NIO/ByteBuffer-int.swift:115-146 | it is the least power of two that is not smaller |
| ProtoWire.FieldRoundTrip | Stad.Core/StadProtoModel.cs:358-370 | an encoded field is read back, and nothing behind it |
| ProtoWire.FoldEncoded | Stad.Core/StadProtoModel.cs:663-690 | reading written fields applies them in order |
| ProtoWire.Varint32SizeIsLength | Stad.Core/StadProtoModel.cs:623-640 | the size calculated for a number is the number of bytes written |
| ProtoWire.Int32SizeIsLength | Stad.Core/StadProtoModel.cs:628-630 | also for a negative one, ten bytes |
| ProtoWire.Low32Extended | Stad.Core/StadProtoModel.cs:710-713 | a sign-extended number comes back from its low 32 bits |
| ProtoModel.RegistryRoundTrip | Stad.Core/StadProtoModel.cs:165-226 | reading what was written gives the message back, and reading two written messages in a row is merging them |
| ProtoModel.DataSetRoundTrip | Stad.Core/StadProtoModel.cs:358-447 | the same for a data set |
| ProtoModel.StadModelRoundTrip | Stad.Core/StadProtoModel.cs:601-727 | the same for a model, with the presence of its annotation and a negative type code |
| ProtoModel.AnnotationInfoRoundTrip | Stad.Core/StadProtoModel.cs:826-887 | the same for annotation info |
| ProtoModel.StadAnnotationRoundTrip | Stad.Core/StadProtoModel.cs:991-1059 | the same for an annotation |
| ProtoModel.MemberDefinitionRoundTrip | Stad.Core/StadProtoModel.cs:1217-1349 | the same for a member definition |
| ProtoModel.RegistryReads | Stad.Core/StadProtoModel.cs:184-226 | reading written bytes into any message merges them into it, at every nesting level |
| ProtoModel.StadModelReads | Stad.Core/StadProtoModel.cs:642-727 | the same: scalars overwritten only by non-default values, lists appended, annotations merged recursively |
| ProtoModel.DataSetReads | Stad.Core/StadProtoModel.cs:386-449 | reading a written data set into any data set merges it |
| ProtoModel.AnnotationInfoReads | Stad.Core/StadProtoModel.cs:845-888 | reading a written annotation info into any annotation info merges it |
| ProtoModel.StadAnnotationReads | Stad.Core/StadProtoModel.cs:1015-1060 | reading a written annotation into any annotation merges it |
| ProtoModel.MemberDefinitionReads | Stad.Core/StadProtoModel.cs:1262-1349 | reading a written member definition into any member definition merges it |
| ProtoExamples.AnnotationBytes | Stad.Core/StadProtoModel.cs:826-831 | an annotation and annotation info in literal bytes |
| ProtoExamples.MemberBytes | Stad.Core/StadProtoModel.cs:1217-1237 | a member definition in literal bytes |
| ProtoExamples.ModelBytes | Stad.Core/StadProtoModel.cs:602-619 | a model in literal bytes, with the type code -1 in ten of them |
| ProtoExamples.DataSetBytes | Stad.Core/StadProtoModel.cs:358-368 | a data set in literal bytes |
| ProtoExamples.RegistryBytes | Stad.Core/StadProtoModel.cs:165-170 | and a registry |
| ProtoExamples.FixedSkipped | Stad.Core/StadProtoModel.cs:214-227 | fields of the fixed-size wire types are skipped, eight and four bytes long |
| ProtoExamples.Refused | Stad.Core/StadProtoModel.cs:214-227 | input with field number 0, another wire type, or fewer bytes than it says is malformed |
| ProtoExamples.UnknownIgnored | Stad.Core/StadProtoModel.cs:214-227 | a field that a message does not have leaves it as it is |
| ProtoCodec.RegistryProto.InternalWriteTo | Stad.Core/StadProtoModel.cs:165-170 | the statements of the writer append exactly the encoding of the registry fields that are set |
| ProtoCodec.RegistryProto.CalculateSize | Stad.Core/StadProtoModel.cs:174-181 | the size that is added up is the number of bytes the registry writer writes |
| ProtoCodec.RegistryProto.MergeFrom | Stad.Core/StadProtoModel.cs:184-190 | the field-by-field merge is the merge of registry values |
| ProtoCodec.RegistryProto.InternalMergeFrom | Stad.Core/StadProtoModel.cs:214-227 | the tag-driven loop of registry computes the parse of its input, and fails exactly when that does |
| ProtoCodec.DataSetProto.InternalWriteTo | Stad.Core/StadProtoModel.cs:358-368 | the statements of the writer append exactly the encoding of the data set fields that are set |
| ProtoCodec.DataSetProto.CalculateSize | Stad.Core/StadProtoModel.cs:372-383 | the size that is added up is the number of bytes the data set writer writes |
| ProtoCodec.DataSetProto.MergeFrom | Stad.Core/StadProtoModel.cs:386-396 | the field-by-field merge is the merge of data set values |
| ProtoCodec.DataSetProto.InternalMergeFrom | Stad.Core/StadProtoModel.cs:428-449 | the tag-driven loop of data set computes the parse of its input, and fails exactly when that does |
| ProtoCodec.StadModelProto.InternalWriteTo | Stad.Core/StadProtoModel.cs:602-619 | the statements of the writer append exactly the encoding of the model fields that are set |
| ProtoCodec.StadModelProto.CalculateSize | Stad.Core/StadProtoModel.cs:623-639 | the size that is added up is the number of bytes the model writer writes |
| ProtoCodec.StadModelProto.MergeFrom | Stad.Core/StadProtoModel.cs:642-660 | the field-by-field merge is the merge of model values |
| ProtoCodec.StadModelProto.InternalMergeFrom | Stad.Core/StadProtoModel.cs:699-727 | the tag-driven loop of model computes the parse of its input, and fails exactly when that does |
| ProtoCodec.AnnotationInfoProto.InternalWriteTo | Stad.Core/StadProtoModel.cs:826-831 | the statements of the writer append exactly the encoding of the annotation info fields that are set |
| ProtoCodec.AnnotationInfoProto.CalculateSize | Stad.Core/StadProtoModel.cs:835-842 | the size that is added up is the number of bytes the annotation info writer writes |
| ProtoCodec.AnnotationInfoProto.MergeFrom | Stad.Core/StadProtoModel.cs:845-851 | the field-by-field merge is the merge of annotation info values |
| ProtoCodec.AnnotationInfoProto.InternalMergeFrom | Stad.Core/StadProtoModel.cs:875-888 | the tag-driven loop of annotation info computes the parse of its input, and fails exactly when that does |
| ProtoCodec.StadAnnotationProto.InternalWriteTo | Stad.Core/StadProtoModel.cs:991-999 | the statements of the writer append exactly the encoding of the annotation fields that are set |
| ProtoCodec.StadAnnotationProto.CalculateSize | Stad.Core/StadProtoModel.cs:1003-1012 | the size that is added up is the number of bytes the annotation writer writes |
| ProtoCodec.StadAnnotationProto.MergeFrom | Stad.Core/StadProtoModel.cs:1015-1023 | the field-by-field merge is the merge of annotation values |
| ProtoCodec.StadAnnotationProto.InternalMergeFrom | Stad.Core/StadProtoModel.cs:1047-1060 | the tag-driven loop of annotation computes the parse of its input, and fails exactly when that does |
| ProtoCodec.MemberDefinitionProto.InternalWriteTo | Stad.Core/StadProtoModel.cs:1217-1237 | the statements of the writer append exactly the encoding of the member definition fields that are set |
| ProtoCodec.MemberDefinitionProto.CalculateSize | Stad.Core/StadProtoModel.cs:1241-1259 | the size that is added up is the number of bytes the member definition writer writes |
| ProtoCodec.MemberDefinitionProto.MergeFrom | Stad.Core/StadProtoModel.cs:1262-1282 | the field-by-field merge is the merge of member definition values |
| ProtoCodec.MemberDefinitionProto.InternalMergeFrom | Stad.Core/StadProtoModel.cs:1321-1349 | the tag-driven loop of member definition computes the parse of its input, and fails exactly when that does |
| ProtoCodec.WriteAndRead | Stad.Core/StadProtoModel.cs:152-226 | written, read and merged end to end through the streams |
| ChannelPipelines.InsertAfter | Stad.macOS/Pods/SwiftNIO/Sources/NIO/ChannelPipeline.swift:306-314 | four assignments put a context behind another one in a well-linked list |
| ChannelPipelines.InsertBefore | Stad.macOS/Pods/SwiftNIO/Sources/NIO/ChannelPipeline.swift:325-333 | or before it |
| ChannelPipelines.ChannelPipeline.ContextFor | Stad.macOS/Pods/SwiftNIO/Sources/NIO/ChannelPipeline.swift:480-490 | the first context of a handler between head and tail, if there is one |
| ChannelPipelines.ChannelPipeline.Add | Stad.macOS/Pods/SwiftNIO/Sources/NIO/ChannelPipeline.swift:194-295 | the handler goes to its position in the list between the sentinels, or exactly the error for it and no change |
| ChannelPipelines.AddedAndRemoved | Stad.macOS/Pods/SwiftNIO/Sources/NIO/ChannelPipeline.swift:194-295 | what these positions are: in front of all, behind all, right before and right after the first occurrence of a handler; and what removing it leaves |
| ChannelPipelines.ChannelPipeline.AddHandlers | Stad.macOS/Pods/SwiftNIO/Sources/NIO/ChannelPipeline.swift:895-939 | handlers are added one by one, reversed where each goes right behind the same place |
| ChannelPipelines.BlockInserted | Stad.macOS/Pods/SwiftNIO/Sources/NIO/ChannelPipeline.swift:895-939 | the handlers go in as one block in the order given, except before a handler that is itself among them; there exactly when nothing else comes after it |
| ChannelPipelines.BlockTornApart | Stad.macOS/Pods/SwiftNIO/Sources/NIO/ChannelPipeline.swift:905-906 | adding x and y before x gives y, x, x |
| ChannelPipelines.ChannelPipeline.RemoveHandlerFromPipeline | Stad.macOS/Pods/SwiftNIO/Sources/NIO/ChannelPipeline.swift:495-518 | a context is unlinked and its handler told once; removing it again changes nothing |
| ChannelPipelines.ChannelPipeline.RemoveHandler | Stad.macOS/Pods/SwiftNIO/Sources/NIO/ChannelPipeline.swift:340-421 | the first context of the handler leaves, and only it |
| ChannelPipelines.ChannelPipeline.RemoveHandlers | Stad.macOS/Pods/SwiftNIO/Sources/NIO/ChannelPipeline.swift:533-547 | teardown ends, unlinks every context, and tells every handler exactly once, the head last |
| ChannelPipelines.ChannelPipeline.FireInbound | Stad.macOS/Pods/SwiftNIO/Sources/NIO/ChannelPipeline.swift:808-860 | an inbound event is seen at strictly rising positions behind the head, at each by an inbound handler, and by every inbound handler |
| ChannelPipelines.ChannelPipeline.FireOutbound | Stad.macOS/Pods/SwiftNIO/Sources/NIO/ChannelPipeline.swift:740-766 | an outbound event is seen at strictly falling positions before the tail, at each by an outbound handler, and by every outbound handler |
| ChannelPipelines.ChannelPipeline.FireWriteAndFlush | Stad.macOS/Pods/SwiftNIO/Sources/NIO/ChannelPipeline.swift:768-774 | write-and-flush makes two passes over these positions: all handlers see the write before any sees the flush |
| ChannelPipelines.ChannelPipeline.Run | Stad.macOS/Pods/SwiftNIO/Sources/NIO/ChannelPipeline.swift:194-518 | after any adds and removes the links are the list that the operations describe |
| TypeCollectors.TypeCollector.Collect | Stad.Analysis/TypeCollectorForAssembly.cs:78-94 | the types visited are exactly those reachable from the targets through kept members and generic arguments, and each has exactly one entry, in the list for its kind; a generic type has one unless it is one of two named types |
| TypeCollectors.LeadsTo | Stad.Analysis/TypeCollectorForAssembly.cs:134-235 | from a type the search goes on to the types of the members that can be read or written, and from a generic type, but for the two, to its arguments |
| TypeCollectors.EntrySays | Stad.Analysis/TypeCollectorForAssembly.cs:223-234 | an entry has the name of its type and the kept members, the properties before the fields |
| TypeCollectors.KeptMember | Stad.Analysis/TypeCollectorForAssembly.cs:170-221 | the members of an entry: those that can be read or written, in their order, with their names and types |
| TypeCollectors.TypeCollector.CollectCore | Stad.Analysis/TypeCollectorForAssembly.cs:97-118 | one search ends, visits only what is reachable from its type, and leaves no visited type unexplored |
| TypeCollectors.TypeCollector.CollectGeneric | Stad.Analysis/TypeCollectorForAssembly.cs:134-154 | a generic type: its arguments and members are visited, and it has its entry, except in the special case |
| TypeCollectors.TypeCollector.CollectObject | Stad.Analysis/TypeCollectorForAssembly.cs:156-160 | an object: its members are visited before its entry is added |
| TypeCollectors.TypeCollector.GetObjectInfo | Stad.Analysis/TypeCollectorForAssembly.cs:162-235 | the entry of a type lists its readable or writable members; their types are visited |
| TypeCollectors.IsAllowAccessibility | Stad.Analysis/TypeCollectorForCompilation.cs:304-326 | a symbol passes if it and all types around it are public; without `disallowInternal` every symbol passes |
| TypeCollectors.Gate | Stad.Analysis/TypeCollectorForCompilation.cs:121-163 | exactly which symbols are taken as enumeration, as generic type or tuple, as object, or stopped |
| StadOrders.Lookup | Stad.Analysis/StadAnalyzer.cs:69-78 | a lookup by full name finds nothing if and only if neither list has the name; the objects come first |
| StadOrders.Ends | Stad.Analysis/StadAnalyzer.cs:155-178 | building a model ends, within some depth of calls, if and only if no cycle can be reached from its type through collected member types that have no model yet |
| StadOrders.SelfReference | Stad.Analysis/StadAnalyzer.cs:163-170 | a type with a member of its own type: no depth is enough, while the type next to it in the same table is built at once |
| StadOrders.SelectedEnds | Stad.Analysis/StadAnalyzer.cs:112-140 | the loop over the members of a data set ends if and only if no such cycle can be reached from a member whose model is made |
| StadAnalyzers.AnalyzeContext.MakeStadModel | Stad.Analysis/StadAnalyzer.cs:155-178 | whenever the recursion ends: the models are those of the specification, in its order, and every model comes after the models of its members' collected types |
| StadAnalyzers.AnalyzeContext.LinkAll | Stad.Analysis/StadAnalyzer.cs:142-149 | every member definition gets the first model of its type: the one at the least index, none exactly if no model has the type |
| StadAnalyzers.AnalyzeContext.LinkedToOwnType | Stad.Analysis/StadAnalyzer.cs:142-149 | a linked member has a model, of its own type, if and only if its type was collected as object or generic |
| StadAnalyzers.AnalyzeContext.MakeDataSetModel | Stad.Analysis/StadAnalyzer.cs:107-152 | whenever it ends: it fails if and only if some member's type was not collected; otherwise the two lists are the selected members' models, and every member definition has the first model of its type |
| StadAnalyzers.SelectedMember | Stad.Analysis/StadAnalyzer.cs:112-140 | which members are selected for which list: not those to be ignored; a list exactly if the type's name contains StadKeyValueCollection |
| StadAnalyzers.LookupFails | Stad.Analysis/StadAnalyzer.cs:112-118 | after a collection, the lookup of a member of a collected object fails if and only if its type is an enumeration or was stopped by a gate |

## Left out

- HttpExecute.HttpParser.Execute: requires header limit plus input below 2^32, so that the 32-bit header count does not wrap; after an error only the error itself is stated, not the callbacks made before it nor the other fields, and past the header limit the fast skip may report another error than the byte machine.
- HttpSplit.TwoCalls: nothing is stated when the one call stops early; HttpSplit.ExecuteAll covers failing runs.
- HttpHeaders.HeaderBlock: values of Connection and Transfer-Encoding are non-empty lists of tokens with commas and spaces; tabs inside a list, empty elements, parameters and folded lines are read by the byte machine but have no statement of their own.
- HttpExchange.ReadRequest: pausing, and callbacks other than headers-complete that answer, are not part of the statement.
- HttpStandard.FollowsStandard: a Content-Length beside a Transfer-Encoding "ought to be handled as an error" in rule 3, and is one here; of rule 4, a second Content-Length is refused, with equal numbers as well, which HttpHeaders.LengthRefused states; a name with spaces behind it counts as the name.
- HttpExchange.ReadRequests: requests that change the protocol end a connection and are not followed by others.
- HttpUrl.HttpParserUrl.ParseUrl: inputs longer than 65535 bytes, whose offsets the 16-bit fields would truncate.
- HttpUrlText.SplitTail: texts with a path; a query alone and `*` are covered by HttpUrl.HttpParserUrl.ParseUrl only.
- ByteBuffers.ByteBuffer.SetBytes: as for all operations of the buffer, sizes for which the 32-bit additions do not trap; memory is a sequence held by the storage object, not an array.
- ByteBuffers.ByteBuffer.GetSlice: the debug-only index assertions on the copying path are not modelled.
- ProtoModel.StadModelRoundTrip: messages are values, so that two messages sharing one sub-message after a merge is not captured; sizes up to 2^31 - 1 bytes; strings are their bytes; unknown fields are skipped and not kept, groups are not modelled.
- StadAnalyzers.AnalyzeContext.MakeStadModel: is stated for the calls that end, which StadOrders.Ends describes exactly; a call that does not end has no result.
- StadAnalyzers.AnalyzeContext.MakeDataSetModel: attributes are one flag, to be ignored or not; the loop over all data sets in MakeRegistry only filters.
- ChannelPipelines.ChannelPipeline.RemoveHandler: handlers that delay their removal, promises, names, event-loop hops, failing handlerAdded, and callbacks that call back into the pipeline.
- TypeCollectors.TypeCollector.Collect: a tuple is its underlying generic type in the table; array element types, the sorting of the results by name and the attributes of types and members.
- Strict and lenient parsing, pausing, callbacks that return errors, and the name tables of errors and statuses.
- ByteBuffer strings, integers, DispatchData, hashing, descriptions and equality, and closures over raw pointers.
- Allocation failure, 32-bit platforms, sockets, selectors, event loops, channel options, logging, views and services.
- Reflection, Roslyn, JSON formatting and file sources.
