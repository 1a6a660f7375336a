# Verified models of the web framework and its training engine

Dafny models of the parts of this repository that carry the most logic, and proofs of what they promise:

* **HTTP** (`HttpMachine`, `HttpInvariant`, `HttpRuns`, `HttpExecute`, `HttpMeaning`, `HttpLines`, `HttpMessage`, `HttpFolds`,
  `HttpAssertion`, `HttpUpgrade`): the request parser from the first header byte on. `HttpMachine` is the parser as a machine that reads one byte after the other; `HttpExecute` is
  `http_parser_execute` as it is written, with its block scans and marks, proved to refine that machine; the other
  modules prove things of the machine. `HttpLines`, `HttpFolds` and `HttpMessage` say what it makes of header lines,
  folded ones and whole requests.
* **Routing** (`RoutingRules`, `RoutingTrie`, `Routing`, `RoutingLaws`): the trie with `add`, `optimize` and `find`, against
  the plain list of rules, and what patterns and parameters take of a url.
* **Mustache** (`MustacheMeaning`, `MustacheText`, `MustacheLines`, `MustacheTemplate`, `MustacheSource`,
  `MustacheLaws`): `parse`, the flat actions with jumps, the lines on which a tag stands alone, and the interpreter, against
  nested templates; how templates are written, and what sections, variables and escapes print.
* **JSON** (`JsonText`, `JsonGrammar`, `JsonRoundTrip`, `JsonParser`, `JsonWriter`, `JsonWhole`, `JsonStandard`,
  `JsonDocuments`): `dump`, the parser that works on its own copy of the text, unescaping in place, and exactly which
  documents are accepted.
* **WebSocket** (`WebSocketFrames`, `WebSocketMessages`, `WebSocketConnection`, `WebSocketLaws`): frame headers, masking,
  the read states, fragments, and the double-buffered writes.
* **Sessions** (`SessionPlain`, `SessionLaws`, `SessionCache`, `SessionServer`): the reference-counted cache over the in-memory
  store, against a plain map of sessions, and what requests read of it.
* **Training engine** (`NeuralSums`, `NeuralGradient`, `NeuralMath`, `NeuralSoftmax`, `NeuralLayer`, `NeuralData`,
  `NeuralNetworks`): matrix loops, dense layers, softmax with cross entropy, training, normalisation and mini-batches.
* **Base64** (`Base64`).

`Wrappers` and `Sequences` hold what several of them use.

`dafny verify dfyconfig.toml` checks the whole project.

## What the models take for granted

* HTTP: callbacks return 0, so `F_SKIPBODY` is never set; strings that were moved from are empty; buffers fit the `int`
  that `feed` takes. The callbacks' data is kept as what they collect: the names and values as `on_header_field` and
  `on_header_value` put them together, and the body.
* Routing: `strtod` is a parameter that consumes at least one character or fails; patterns hold known tags only.
* Mustache: names hold no dot, there are no partials in a template that is rendered and no lambdas, the indentation is
  zero.
* JSON: numbers that are written are integers that fit 64 bits; the separator of a positive indentation is white space;
  an object's entries come in the order in which its map gives them.
* WebSocket: the two header bytes arrive together, handlers are set, no read fails, and the program is built without
  `CROW_ENFORCE_WS_SPEC`. `dispatch` runs its call at once, `post` queues it.
* Sessions: a moved-from map is empty; an identifier that is made up is not that of a session in use. `AfterHandle`
  says what happens otherwise.
* Training engine: real numbers; `exp` is positive and strictly increasing, `sqrt` is the non-negative root;
  `lambda` is 0 and `keepProb` is 1; random initial weights are a parameter.
* Integers are unbounded except where a width is written out: the lengths of the HTTP parser, the array growth of JSON
  lists, WebSocket lengths and bytes, and Base64's bytes.

## What the proofs found

* The Upgrade header is the one place where cutting a stream matters: at the `h` of `h2` the parser looks at the next byte
  if the buffer holds it (`HttpRuns.CutHarmlessIff`). The difference lasts to the end of the message unless a later
  Upgrade value sets the same flag (`HttpUpgrade.CutEndsIff`).
* The assertion at `http_parser_merged.h:1397` fails for a Connection value that begins with NUL, but only if a byte that
  may stand in a value follows, right behind the NUL or behind lines folded with a space (a tab moves the matcher on);
  `HttpAssertion.AssertionFailsIff` says exactly when, and `HttpAssertion.AssertionReached` gives a request.
* A header name that only starts with `transfer-encoding` counts as that header for the check against Content-Length
  (`HttpMeaning.HeaderNameMeaning`).
* A transfer coding that begins to spell `chunked` swallows the byte that shows it is another one, so that a comma there is
  not heard: behind `chunked,` or `c,` no further coding counts (`HttpLines.CodingAt`), and `chunked, chunked` is refused.
* In a chunk's size every byte from 128 on counts as the digit 0, because the table of digits leaves out its second half
  (`HttpMessage.NoDigit`).
* A value that goes on on a folded line, be it a blank one, is not heard as keep-alive, close or chunked any more
  (`HttpFolds.FoldRead`).
* The size limit is tested behind a block scan, so the scan can report another error first: exactly if the value in
  which the limit is passed holds, behind that place and in the same buffer, a byte that the scan refuses
  (`HttpExecute.HttpParser.Execute`; `HttpExecute.LateRefusalReached` gives a buffer). In an uninteresting value the scan
  steps over one byte unread after each 80 KB.
* `Trie::add` takes a NUL of a pattern for a parameter child, whose key is empty: exactly then a rule is filed under
  another pattern than its own (`RoutingTrie.FiledIff`).
* The JSON parser counts its depth twice per level, so that 5000 is the deepest nesting it reads
  (`JsonRoundTrip.RoundTrip`); its tables refuse the standard numbers `0e1` and `-0E5` and their like
  (`JsonRoundTrip.StandardNumberReads`). They also read `1.` and `1e+`, which the standard does not have: what
  `JsonStandard.ValidNum` describes is exactly what they read (`JsonStandard.NumEnds`, `JsonStandard.NumFound`).
* Reading an escaped JSON string through one copy of its `rvalue` changes what another copy reads
  (`JsonParser.Parser.Unescape`).
* `send_data` never looks at `has_sent_close_`. The queue holds nothing behind a Close frame exactly if no posted call runs
  and nobody closes again once one was sent. On the wire nothing goes out behind a Close frame exactly if that holds up
  to every start of a write (both in `WebSocketConnection.Connection.Run`): a frame may go out behind it
  (`WebSocketConnection.DataBehindClose`), and one that is enqueued while the connection is being closed may wait forever
  (`WebSocketConnection.DataStranded`). Reading never adds anything behind a Close frame. An empty Close is answered
  with code 1005 (`WebSocketConnection.Connection.HandleClose`).
* `after_handle` does not use `next_id`, so nothing rules out that a made-up session identifier is taken; a session loses
  nothing exactly if that does not happen to it (`SessionPlain.NothingLostIff`).
* Normalisation statistics of a second training are stored behind the first and never used
  (`NeuralNetworks.NeuralNetwork.NormalizeBoth`). `initDerivatives` does not reset `dw` and `db`, which are overwritten before use.
* The text `=` makes `base64decode` ask for 2^64 - 1 bytes (`Base64.Decode`).

## Model

| member | source | states |
|---|---|---|
| HttpRuns.SplitInvariance | c++-framework/lib/crow/http_parser_merged.h:693-1925 | a message cut anywhere into any number of non-empty buffers leaves the parser with the same state, flags, lengths, error, collected names, values and body as in one buffer, unless a cut is at the Upgrade look-ahead |
| HttpRuns.CutInvariant | c++-framework/lib/crow/http_parser_merged.h:693-1925 | one cut: the first buffer ends where the whole buffer is at that place, and the second goes on from there |
| HttpRuns.CutHarmlessIff | c++-framework/lib/crow/http_parser_merged.h:1275-1286 | right behind a cut the parser is where it would be without it, if and only if the cut is not right behind an `h` that starts an Upgrade value and is followed by `2` |
| HttpRuns.CutAtHazard | c++-framework/lib/crow/http_parser_merged.h:1275-1286 | at that place the cut changes the upgrade flag |
| HttpRuns.LookaheadMatters | c++-framework/lib/crow/http_parser_merged.h:1275-1286 | hiding the byte behind the current one changes a step if and only if the step is at the Upgrade look-ahead; then the flag alone differs |
| HttpUpgrade.CutEndsIff | c++-framework/lib/crow/http_parser_merged.h:693-1925 | a message cut in two ends in the same state if and only if the cut is not at the look-ahead, or a later Upgrade value of the same headers or trailer sets the flag anyway |
| HttpUpgrade.CutAtHazardEnds | c++-framework/lib/crow/http_parser_merged.h:1275-1286 | the case of a cut at the look-ahead |
| HttpRuns.ReachableOk | c++-framework/lib/crow/http_parser_merged.h:1300-1888 | the assertions on the body length, F_CHUNKED and nread hold in every state reachable from a good one, whatever the bytes; without NUL bytes the matcher never stays at h_connection inside a value |
| HttpRuns.AssertionsHold | c++-framework/lib/crow/http_parser_merged.h:1056-1888 | the same from the first header byte on; HttpAssertion.AssertionFailsIff says when the assertion of the matcher fails |
| HttpInvariant.StepKeepsInv | c++-framework/lib/crow/http_parser_merged.h:1056-1896 | one byte keeps the invariant behind the assertions; the matcher comes to stay at h_connection inside a value if and only if a NUL begins the value of a Connection header |
| HttpInvariant.ValueStartAtAssertion | c++-framework/lib/crow/http_parser_merged.h:1320-1335 | the first byte of a value leaves the matcher at h_connection if and only if the header is a Connection one and the byte is NUL or a space (spaces are skipped before) |
| HttpInvariant.HeadersDoneKeeps | c++-framework/lib/crow/http_parser_merged.h:1652-1722 | choosing the body's length form keeps the invariant |
| HttpInvariant.MatchValueKeeps | c++-framework/lib/crow/http_parser_merged.h:1397-1506 | matching a value byte keeps length and matcher position in range |
| HttpInvariant.ContentLengthDigitBound | c++-framework/lib/crow/http_parser_merged.h:1402-1430 | a further Content-Length digit is refused or stays below 2^64 |
| HttpInvariant.ChunkKeeps | c++-framework/lib/crow/http_parser_merged.h:1770-1888 | the chunk states keep the invariant |
| HttpAssertion.AssertionFailsIff | c++-framework/lib/crow/http_parser_merged.h:1341-1400 | the assertion of the matcher fails in a run if and only if a Connection value begins with NUL and goes on, right there or behind lines folded with a space, with a byte that may stand in a value, within the size limit |
| HttpAssertion.NulLineFails | c++-framework/lib/crow/http_parser_merged.h:1056-1400 | a header line with NUL and one more byte as its value makes it fail if and only if the name is Connection or Proxy-Connection in any case and the byte may stand in a value |
| HttpAssertion.AssertionReached | c++-framework/lib/crow/http_parser_merged.h:1395-1398 | `connection:` NUL `a` behind a request line makes it fail |
| HttpAssertion.FoldsLinger | c++-framework/lib/crow/http_parser_merged.h:1346-1360 | lines folded with a space keep the matcher where the NUL left it; a tab would move it on |
| HttpExecute.HttpParser.Execute | c++-framework/lib/crow/http_parser_merged.h:693-1925 | the loop with block scans and marks refines the byte machine, of which HttpMessage says what it does with whole requests: the same parser after the buffer; on an error the same error, unless the block of a value in which the size limit is passed holds behind that place a byte that the scan refuses, and then that byte's error; what the number of bytes read is |
| HttpExecute.HttpParser.FeedAll | c++-framework/lib/crow/parser.h:111-134 | feeding a message buffer by buffer ends where the byte machine ends on the message in one piece, with the same error if and only if no buffer holds a byte refused behind the limit |
| HttpExecute.HttpParser.Feed | c++-framework/lib/crow/parser.h:111-134 | one buffer; nothing is read after the message is complete; the result is true if and only if that was so, or there is no error and the whole buffer was taken |
| HttpExecute.LateRefusalReached | c++-framework/lib/crow/http_parser_merged.h:1341-1517 | a buffer on which the scan reports another error than the size limit's |
| HttpExecute.LateOverflows | c++-framework/lib/crow/http_parser_merged.h:292-299 | where a byte is refused behind the limit, the byte machine stops at the limit |
| HttpExecute.NoneRefused | c++-framework/lib/crow/http_parser_merged.h:292-299 | where the limit is not passed, no byte is refused behind it |
| HttpExecute.HttpParser.NameBytes | c++-framework/lib/crow/http_parser_merged.h:1106-1221 | the inner loop over a header name goes exactly as far as the byte machine stays in the name |
| HttpExecute.HttpParser.ScanField | c++-framework/lib/crow/http_parser_merged.h:1106-1249 | a header name up to its end, the end of the buffer or an error |
| HttpExecute.HttpParser.GeneralValueBytes | c++-framework/lib/crow/http_parser_merged.h:1369-1391 | the search for CR or LF in an uninteresting value |
| HttpExecute.HttpParser.ValueBytes | c++-framework/lib/crow/http_parser_merged.h:1341-1513 | the inner loop over a header value |
| HttpExecute.HttpParser.ScanValue | c++-framework/lib/crow/http_parser_merged.h:1341-1517 | a header value up to its end, the end of the buffer or an error |
| HttpExecute.HttpParser.StartName | c++-framework/lib/crow/http_parser_merged.h:1056-1105 | the first byte of a header line |
| HttpExecute.HttpParser.StartValue | c++-framework/lib/crow/http_parser_merged.h:1250-1340 | the first byte of a header value |
| HttpExecute.HttpParser.ScanBody | c++-framework/lib/crow/http_parser_merged.h:1723-1759 | as much of a body of known length as the buffer holds |
| HttpExecute.HttpParser.ScanChunk | c++-framework/lib/crow/http_parser_merged.h:1851-1873 | as much of a chunk as the buffer holds |
| HttpExecute.HttpParser.ScanToEof | c++-framework/lib/crow/http_parser_merged.h:1760-1765 | a body that lasts until the connection closes |
| HttpExecute.HttpParser.EndChunk | c++-framework/lib/crow/http_parser_merged.h:1874-1881 | the CR behind a chunk hands the collected body to its callback |
| HttpExecute.HttpParser.HeaderByte | c++-framework/lib/crow/http_parser_merged.h:1518-1722 | the states between header lines and at the end of the headers, which go on as HttpMessage.EndOfHeaders says |
| HttpExecute.HttpParser.Round | c++-framework/lib/crow/http_parser_merged.h:748-1896 | one turn of the loop, in whatever state |
| HttpExecute.HttpParser.Flush | c++-framework/lib/crow/http_parser_merged.h:1897-1916 | data marked at the end of the buffer is handed to its callback |
| HttpMeaning.HeaderNameMeaning | c++-framework/lib/crow/http_parser_merged.h:1056-1249 | a header is taken for Content-Length, Transfer-Encoding, Upgrade or Connection if and only if its name is that word in any case; Transfer-Encoding counts as seen if a name only starts with the word |
| HttpMeaning.NameRead | c++-framework/lib/crow/http_parser_merged.h:1106-1221 | the matcher's state says after every prefix which of the words are still possible |
| HttpMeaning.TracksExact | c++-framework/lib/crow/http_parser_merged.h:1106-1221 | matcher states and spelled words correspond both ways |
| HttpMeaning.ContentLengthExact | c++-framework/lib/crow/http_parser_merged.h:1300-1430 | digits are accepted if and only if they spell a number of at most 2^64 - 7, and then that is the length |
| HttpMeaning.ChunkSizeExact | c++-framework/lib/crow/http_parser_merged.h:1770-1822 | hexadecimal digits are accepted if and only if they spell a number of at most 2^64 - 17, and then that is the chunk's size |
| HttpMeaning.LineRead | c++-framework/lib/crow/http_parser_merged.h:1770-1850 | a chunk's size line with an extension |
| HttpMeaning.ChunkRead | c++-framework/lib/crow/http_parser_merged.h:1770-1888 | a chunk with its size line and its end hands exactly its data to the body callback |
| HttpMeaning.ChunkedInverts | c++-framework/lib/crow/http_parser_merged.h:1770-1888 | decoding undoes chunked encoding for every list of non-empty chunks |
| HttpMeaning.ChunkedMessage | c++-framework/lib/crow/http_parser_merged.h:1580-1888 | the body is the chunks put together, and the message completes once, at the last byte |
| HttpMessage.IdentityRequest | c++-framework/lib/crow/http_parser_merged.h:1573-1759 | whatever its header lines, a request without transfer encoding and upgrade completes once, at the last byte of its body of the given length, or at the end of the headers without one; that body, the headers, keep-alive and close are handed over |
| HttpMessage.ChunkedRequest | c++-framework/lib/crow/http_parser_merged.h:1573-1888 | a request whose last transfer coding is chunked completes once, at the end of its last chunk, and its body is the data of the chunks |
| HttpMessage.OtherProtocol | c++-framework/lib/crow/http_parser_merged.h:1649-1687 | a request that asks for another protocol completes at the end of its headers, and nothing behind is read |
| HttpMessage.RefusedRequest | c++-framework/lib/crow/http_parser_merged.h:1604-1625 | a transfer encoding is refused together with a length, or when chunked is not its last coding, unless the configuration allows it |
| HttpMessage.EndOfHeaders | c++-framework/lib/crow/http_parser_merged.h:1518-1722 | the empty line: which of error, upgrade, chunks, known length, endless body and completion follows, for every combination of flags and lengths |
| HttpMessage.BodyRead | c++-framework/lib/crow/http_parser_merged.h:1723-1759 | a body of known length: every byte is handed over, and the message completes at the last one and not before |
| HttpMessage.EndlessBody | c++-framework/lib/crow/http_parser_merged.h:1760-1765 | a body that lasts until the connection closes: every byte is handed over, and the message never completes |
| HttpMessage.HeadersRead | c++-framework/lib/crow/http_parser_merged.h:1056-1572 | any number of header lines: what is collected, which flags are set, and the length |
| HttpMessage.RefusedBytes | c++-framework/lib/crow/http_parser_merged.h:1056-1888 | the bytes that a request may not have in a name, a value, a length, a line end or a chunk size, and the error of each |
| HttpMessage.SecondLength | c++-framework/lib/crow/http_parser_merged.h:1300-1316 | a second Content-Length is refused |
| HttpMessage.TooManyBytes | c++-framework/lib/crow/http_parser_merged.h:292-299 | header bytes beyond 80 KB are refused |
| HttpMessage.NoDigit | c++-framework/lib/crow/http_parser_merged.h:681-692 | which bytes are refused as digits of a chunk size: none from 128 on |
| HttpMessage.HexIs | c++-framework/lib/crow/http_parser_merged.h:681-692 | the hexadecimal digits and their values |
| HttpMessage.EndOfTrailer | c++-framework/lib/crow/http_parser_merged.h:1584-1588 | behind the last chunk: the empty line completes the message |
| HttpFolds.FoldRead | c++-framework/lib/crow/http_parser_merged.h:1263-1560 | a value that goes on on a folded line is the bytes of both; keep-alive, close and chunked are not heard then, but a list of codings that breaks off behind a comma goes on, and behind a length only spaces are allowed |
| HttpFolds.FoldCodings | c++-framework/lib/crow/http_parser_merged.h:1437-1468 | what is heard of such a list after every byte |
| HttpFolds.FoldLength | c++-framework/lib/crow/http_parser_merged.h:1397-1435 | a fold behind a length: any blank, then spaces, or an error |
| HttpLines.HeaderRead | c++-framework/lib/crow/http_parser_merged.h:1056-1572 | one header line is collected as name and value, and asks exactly for keep-alive, close, upgrade, chunked or a length when its name and value say so |
| HttpLines.ValueRead | c++-framework/lib/crow/http_parser_merged.h:1250-1513 | a value byte by byte: what has been matched of it after every prefix |
| HttpLines.WhatItAsks | c++-framework/lib/crow/http_parser_merged.h:1540-1556 | the flags that are set at the end of a value are those that the whole value says |
| HttpLines.KindIs | c++-framework/lib/crow/http_parser_merged.h:1056-1249 | which name selects which treatment of its value |
| HttpLines.NameSpells | c++-framework/lib/crow/http_parser_merged.h:1056-1249 | a name is compared letter by letter, capital letters counting as small ones |
| HttpLines.TokenIs | c++-framework/lib/crow/http_parser_merged.h:639-679 | the characters of a name are those of section 3.2.6 of RFC 7230, and capital letters are read as small ones |
| HttpLines.ConnectionNext | c++-framework/lib/crow/http_parser_merged.h:1470-1508 | what a Connection value has said so far |
| HttpLines.CodingsNext | c++-framework/lib/crow/http_parser_merged.h:1437-1504 | which transfer coding is heard so far |
| HttpLines.OneCoding | c++-framework/lib/crow/http_parser_merged.h:1437-1504 | a value without a comma is one coding |
| HttpLines.NextCoding | c++-framework/lib/crow/http_parser_merged.h:1463-1468 | the coding behind a comma is heard if the one before does not begin to spell chunked |
| Routing.Trie.Find | c++-framework/lib/crow/routing.h:990-993 | the smallest index among the registered patterns that match the whole url, with exactly that pattern's captures, the first of them if several have that index; 0 if and only if none matches |
| Routing.Trie.FindFrom | c++-framework/lib/crow/routing.h:832-988 | the recursive search gives the best of the rules below the node and leaves the shared parameter stacks as it found them |
| Routing.Trie.Add | c++-framework/lib/crow/routing.h:996-1079 | the rule is filed under its pattern, or refused if and only if that pattern is there; nothing else changes; the pattern is the url's own if and only if none of its NULs is taken by a parameter child |
| Routing.Trie.Optimize | c++-framework/lib/crow/routing.h:742-748 | path compression keeps every rule, and below the head nothing is left to compress |
| Routing.OptimizeKeepsFind | c++-framework/lib/crow/routing.h:742-773 | on every url `find` gives the same index and parameters before and after `optimize` |
| RoutingTrie.FiledIff | c++-framework/lib/crow/routing.h:1056-1056 | `add` files a rule under another pattern than its own if and only if on the way down a NUL of the pattern meets a parameter child before one that stands for NUL |
| Routing.RoutingParams.PushBack | c++-framework/lib/crow/routing.h:880-880 | pushes a captured value on the stack of its kind |
| Routing.RoutingParams.PopBack | c++-framework/lib/crow/routing.h:884-884 | undoes that push and no more |
| RoutingRules.BestIsBest | c++-framework/lib/crow/routing.h:847-854 | the answer is a matching rule with its own captures, no matching rule has a smaller index, and there is none if and only if no rule matches |
| RoutingRules.BestOfBoth | c++-framework/lib/crow/routing.h:847-854 | searching two lists of rules one after the other |
| RoutingRules.MatchLits | c++-framework/lib/crow/routing.h:970-977 | comparing a literal piece at once is matching its characters one by one |
| RoutingRules.BestUnderLits | c++-framework/lib/crow/routing.h:970-981 | the best rule below a literal piece |
| RoutingRules.BestUnderParam | c++-framework/lib/crow/routing.h:867-967 | the best rule below a parameter, with its capture in front |
| RoutingRules.BestAtEnd | c++-framework/lib/crow/routing.h:857-861 | at the end of the url no longer pattern matches |
| RoutingTrie.CompressKeepsRules | c++-framework/lib/crow/routing.h:752-773 | compression keeps the rules of a tree, in their order |
| RoutingTrie.CompressIsCompressed | c++-framework/lib/crow/routing.h:714-773 | after it no node could take over an only child |
| RoutingTrie.CompressConsumes | c++-framework/lib/crow/routing.h:752-773 | after it every child still consumes something, so that the search ends |
| RoutingTrie.MergedCount | c++-framework/lib/crow/routing.h:756-765 | merging a node with its only child leaves fewer nodes, so that compression ends |
| RoutingTrie.MergedRules | c++-framework/lib/crow/routing.h:756-763 | merging joins the two keys and keeps the rules |
| RoutingTrie.InsertAdds | c++-framework/lib/crow/routing.h:996-1079 | insertion adds exactly one rule and fails if and only if its pattern is in the tree |
| RoutingTrie.RuleIsThere | c++-framework/lib/crow/routing.h:1076-1078 | a node has a rule of its own if and only if the empty pattern is among its rules |
| RoutingTrie.RulesHaveIndices | c++-framework/lib/crow/routing.h:1076-1078 | no rule has index 0 |
| RoutingLaws.MatchIs | c++-framework/lib/crow/routing.h:832-988 | a pattern matches a url with certain values if and only if the url can be cut so that every token takes its piece |
| RoutingLaws.ScanIs | c++-framework/lib/crow/routing.h:867-967 | a parameter takes a piece exactly if that is an integer in range up to its last digit, what `strtod` takes, a segment up to the next slash, or the rest of the url |
| RoutingLaws.ScanIntegerIs | c++-framework/lib/crow/routing.h:867-906 | the value of an integer parameter, its end and its range |
| RoutingLaws.PlaceValue | c++-framework/lib/crow/routing.h:867-906 | digits count by their places |
| RoutingLaws.TagIs | c++-framework/lib/crow/routing.h:1008-1050 | a known tag is recognised for its kind, at its whole length |
| RoutingLaws.NoTag | c++-framework/lib/crow/routing.h:1008-1050 | nothing else that begins with `<` is |
| RoutingLaws.PatternReads | c++-framework/lib/crow/routing.h:996-1079 | a pattern is read token by token, and what is behind a well-written front as it stands there |
| RoutingLaws.PatternIs | c++-framework/lib/crow/routing.h:996-1079 | a whole pattern is read as its tokens; one with an unknown tag is none |
| RoutingLaws.HandedOver | c++-framework/lib/crow/routing.h:867-967 | the captured values of each type reach the handler in the order of the pattern |
| MustacheTemplate.TemplateT.RenderInternal | c++-framework/lib/crow/mustache.h:280-425 | interpreting the flat actions appends exactly what the nested template means, restores the context stack, and throws if and only if that meaning is to throw; MustacheLaws says what it means |
| MustacheTemplate.TemplateT.RenderString | c++-framework/lib/crow/mustache.h:484-492 | rendering a compiled template under one context |
| MustacheTemplate.TemplateT.Parse | c++-framework/lib/crow/mustache.h:495-732 | parse succeeds if and only if every tag is well formed and every block is closed by its own name; then there is one action for each tag, the blocks are well nested, every `pos` is its own close tag, and the fragments are the texts between the tags without what the tags that stand alone on their lines take with them |
| MustacheTemplate.TemplateT.ReadTags | c++-framework/lib/crow/mustache.h:502-662 | the loop over the tags, with the block stack |
| MustacheTemplate.TemplateT.NextLexeme | c++-framework/lib/crow/mustache.h:505-525 | finds the next tag and its end, and refuses empty and unclosed tags |
| MustacheTemplate.TemplateT.TagFrom | c++-framework/lib/crow/mustache.h:526-661 | reads one tag of whatever kind |
| MustacheTemplate.TemplateT.ChangeDelimiters | c++-framework/lib/crow/mustache.h:615-652 | the tag that changes the delimiters, with all that it refuses |
| MustacheTemplate.TemplateT.SkipSpaces | c++-framework/lib/crow/mustache.h:531-532 | the loop over the spaces before a name |
| MustacheTemplate.TemplateT.TrimSpaces | c++-framework/lib/crow/mustache.h:533-534 | the loop back over the spaces behind a name |
| MustacheTemplate.TemplateT.AppendOpen | c++-framework/lib/crow/mustache.h:529-537 | an opening tag is pushed on the block stack |
| MustacheTemplate.TemplateT.AppendClose | c++-framework/lib/crow/mustache.h:538-569 | a closing tag is refused or gives the innermost open block its `pos` |
| MustacheTemplate.TemplateT.AddLexeme | c++-framework/lib/crow/mustache.h:526-661 | one tag's fragment and action, whatever its kind |
| MustacheTemplate.TemplateT.AllMatched | c++-framework/lib/crow/mustache.h:664-676 | the check that no block is left open |
| MustacheTemplate.TemplateT.RemoveStandalones | c++-framework/lib/crow/mustache.h:678-731 | exactly the tags that stand alone on their lines take the spaces before them and the end of the line with them; a partial learns how far it was indented; what every action does is left |
| MustacheTemplate.TemplateT.Cuts | c++-framework/lib/crow/mustache.h:681-730 | what is cut beside one action, if and only if it stands alone on its line |
| MustacheTemplate.TemplateT.StandsAlone | c++-framework/lib/crow/mustache.h:681-723 | whether a tag stands alone on its line |
| MustacheLines.CutFacts | c++-framework/lib/crow/mustache.h:678-731 | going from the last tag to the first, what was cut for the tags behind a tag does not change whether it stands alone |
| MustacheTemplate.TemplateT.BackOverSpaces | c++-framework/lib/crow/mustache.h:688-695 | the loop back over the spaces before a standalone tag |
| MustacheTemplate.TemplateT.ForwardOverSpaces | c++-framework/lib/crow/mustache.h:701-708 | the loop over the spaces behind it |
| MustacheTemplate.TemplateT.LookUp | c++-framework/lib/crow/mustache.h:171-192 | the innermost object on the stack that has the key |
| MustacheTemplate.TemplateT.AppendEscaped | c++-framework/lib/crow/mustache.h:236-254 | the HTML escapes |
| MustacheTemplate.TemplateT.PrintTag | c++-framework/lib/crow/mustache.h:305-347 | what a variable tag prints, or throws at |
| MustacheTemplate.TemplateT.RenderList | c++-framework/lib/crow/mustache.h:388-399 | a section's body once for each element of a list |
| MustacheTemplate.TemplateT.RunAction | c++-framework/lib/crow/mustache.h:292-421 | one action: what it prints and where the interpreter goes on, entering exactly the sections that MustacheLaws.Complementary shows |
| MustacheTemplate.ChainCloses | c++-framework/lib/crow/mustache.h:552-568 | closing the innermost block makes what stands before it well nested again |
| MustacheTemplate.ChainOpens | c++-framework/lib/crow/mustache.h:535-536 | opening a block keeps what stands between the open blocks well nested |
| MustacheTemplate.RemainingEnter | c++-framework/lib/crow/mustache.h:400-405 | entering a section without a call: what is left to print |
| MustacheTemplate.RemainingClose | c++-framework/lib/crow/mustache.h:415-417 | a close tag pops the context that the section pushed |
| MustacheMeaning.TreeFlattens | c++-framework/lib/crow/mustache.h:115-123 | the tree read off well-nested actions flattens to those very actions |
| MustacheMeaning.FlattenReadsBack | c++-framework/lib/crow/mustache.h:115-123 | the flat code of any template is well nested and reads back as that template |
| MustacheMeaning.NestingNeedsOps | c++-framework/lib/crow/mustache.h:115-123 | nesting depends on the tags only, not on the texts |
| MustacheText.MismatchStays | c++-framework/lib/crow/mustache.h:543-569 | a closing tag that does not match is not mended by what follows |
| MustacheSource.WrittenIsAccepted | c++-framework/lib/crow/mustache.h:495-676 | a template written out as text is accepted, and its tags are read as its flat code |
| MustacheSource.LexReads | c++-framework/lib/crow/mustache.h:502-662 | written code is read back tag by tag |
| MustacheSource.OneMatching | c++-framework/lib/crow/mustache.h:538-569 | there is one way only to match the blocks of given tags |
| MustacheSource.NestedDepth | c++-framework/lib/crow/mustache.h:538-569 | well-nested code closes what it opens, and never more |
| MustacheSource.FlattenCloses | c++-framework/lib/crow/mustache.h:538-569 | the code of a template closes all that it opens |
| MustacheSource.ParseWritten | c++-framework/lib/crow/mustache.h:495-732 | a template written out as text and parsed gives its flat code again, tags and jumps alike, and its texts, at the places of its own lexemes, but for the lines on which a tag stands alone |
| MustacheLaws.RenderWritten | c++-framework/lib/crow/mustache.h:484-732 | a template written out as text, parsed by the loops and rendered is the meaning of that template, but for what the tags that stand alone on their lines take of its texts |
| MustacheLaws.Complementary | c++-framework/lib/crow/mustache.h:348-414 | of a section and an inverted section of the same name exactly one prints its body: the inverted one if and only if no context has the name or its value is false, null or an empty list; true, a number, a string or an object shows the section once, with that value on top, and a list once for each element |
| MustacheLaws.EachShown | c++-framework/lib/crow/mustache.h:388-399 | a section over a list is the concatenation over its elements, each on top in its turn, and throws if and only if one of them throws |
| MustacheLaws.InOrder | c++-framework/lib/crow/mustache.h:280-425 | a template prints its pieces in their order, and throws if and only if one of them throws |
| MustacheLaws.JustText | c++-framework/lib/crow/mustache.h:424-425 | text without tags is printed as it is |
| MustacheLaws.VariablePrints | c++-framework/lib/crow/mustache.h:305-347 | what a variable prints for each kind of value: an escaped string reads back as itself in HTML and is harmless there, and lists, objects and null throw |
| MustacheLaws.EscapeReadsBack | c++-framework/lib/crow/mustache.h:236-254 | an HTML reader gets the escaped string back, and no character that could begin or end a tag or an attribute value is left in it |
| MustacheLaws.EscapedChar | c++-framework/lib/crow/mustache.h:238-252 | the same for each character |
| MustacheLaws.LookUpIs | c++-framework/lib/crow/mustache.h:171-192 | a name is answered by the innermost object that has it |
| MustacheLaws.AloneIff | c++-framework/lib/crow/mustache.h:681-723 | a tag stands alone on its line if and only if only spaces and tabs stand before it and only these and a line end behind it |
| MustacheLaws.WhatIsCut | c++-framework/lib/crow/mustache.h:681-730 | beside such a tag the spaces before it and the rest of the line are cut, and beside other tags nothing |
| MustacheLaws.BrokenIsRefused | c++-framework/lib/crow/mustache.h:502-525 | a tag that is closed nowhere, empty or one of these is refused |
| MustacheLaws.TagRefusedIff | c++-framework/lib/crow/mustache.h:526-661 | a closed tag is refused if and only if it has three braces without the third one behind it or with other delimiters, or is a change of delimiters that is not two delimiters between equals signs, with spaces between them |
| MustacheLaws.ChangeFound | c++-framework/lib/crow/mustache.h:615-652 | the delimiters that are read are those that stand there |
| MustacheLaws.RefusedBehind | c++-framework/lib/crow/mustache.h:502-662 | the same behind any well-written front, whatever its delimiters |
| MustacheLaws.BrokenText | c++-framework/lib/crow/mustache.h:495-676 | so that text is not accepted |
| MustacheLaws.UnbalancedText | c++-framework/lib/crow/mustache.h:538-569 | a text whose tags are well written is accepted if and only if its blocks are closed by their own names |
| MustacheSource.PaddedReads | c++-framework/lib/crow/mustache.h:526-661 | a tag with any number of spaces around its name |
| MustacheSource.TripleReads | c++-framework/lib/crow/mustache.h:591-606 | a tag in triple braces, which is not escaped |
| MustacheSource.NoteReads | c++-framework/lib/crow/mustache.h:579-582 | a comment, whatever its text |
| MustacheSource.ChangeReads | c++-framework/lib/crow/mustache.h:615-652 | a tag that changes the delimiters is read as the delimiters that it writes |
| JsonRoundTrip.RoundTrip | c++-framework/lib/crow/json.h:902-1255 | what dump writes, at any indentation, is read back if and only if at most 5000 lists and objects are nested; else an error is reported |
| JsonWhole.DumpAndLoad | c++-framework/lib/crow/json.h:1260-2037 | writing with the loops of dump and reading with the parser gives the value back if and only if it is nested at most 5000 deep |
| JsonRoundTrip.DumpParses | c++-framework/lib/crow/json.h:1129-1181 | the same for a value inside a text, at any depth |
| JsonRoundTrip.ListParses | c++-framework/lib/crow/json.h:962-1000 | a written list |
| JsonRoundTrip.ItemsParse | c++-framework/lib/crow/json.h:977-998 | the items of a written list |
| JsonRoundTrip.ObjectParses | c++-framework/lib/crow/json.h:1183-1244 | a written object |
| JsonRoundTrip.EntriesParse | c++-framework/lib/crow/json.h:1202-1242 | the entries of a written object |
| JsonRoundTrip.EscapeReadsBack | c++-framework/lib/crow/json.h:45-71 | unescaping undoes escape for every string |
| JsonRoundTrip.EscapeEnds | c++-framework/lib/crow/json.h:902-960 | the quote that ends a written string is the first that the parser takes for one |
| JsonRoundTrip.StandardNumberReads | c++-framework/lib/crow/json.h:1002-1126 | of the numbers of section 6 of RFC 8259 the state tables accept all but a zero with an exponent and no fraction |
| JsonRoundTrip.IntegerReadsBack | c++-framework/lib/crow/json.h:1933-1940 | an integer survives as its decimal text |
| JsonRoundTrip.IndentationSkipped | c++-framework/lib/crow/json.h:1845-1849 | what is inserted for indentation is skipped as white space |
| JsonGrammar.StringEndEscaped | c++-framework/lib/crow/json.h:902-960 | the characters before the closing quote hold complete escapes only |
| JsonGrammar.SkipBlanks | c++-framework/lib/crow/json.h:896-900 | where the white space ends |
| JsonParser.UnescapeShortens | c++-framework/lib/crow/json.h:480-542 | unescaping shortens a string if and only if it holds an escape |
| JsonParser.Undisturbed | c++-framework/lib/crow/json.h:952-962 | writing elsewhere in the buffer does not change a read value |
| JsonParser.Appended | c++-framework/lib/crow/json.h:990-990 | an item read behind others leaves the others what they were |
| JsonParser.Elements.EmplaceBack | c++-framework/lib/crow/json.h:722-740 | the growing array keeps its items; the room left always fits 16 bits |
| JsonParser.Elements.NewSize | c++-framework/lib/crow/json.h:726-730 | how far the array grows: to twice its size, to 4 at least, and by 60000 at most |
| JsonParser.Parser.Consume | c++-framework/lib/crow/json.h:888-894 | takes one expected character |
| JsonParser.Parser.SkipWs | c++-framework/lib/crow/json.h:896-900 | skips white space |
| JsonParser.Parser.SkipEscape | c++-framework/lib/crow/json.h:924-953 | steps over one escape, or finds it incomplete |
| JsonParser.Parser.ScanString | c++-framework/lib/crow/json.h:908-958 | finds the closing quote and whether there were escapes |
| JsonParser.Parser.DecodeString | c++-framework/lib/crow/json.h:902-960 | reads a string, overwriting its quotes only |
| JsonParser.Parser.PutUtf8 | c++-framework/lib/crow/json.h:514-528 | writes the UTF-8 bytes of a code |
| JsonParser.Parser.UnescapeAll | c++-framework/lib/crow/json.h:484-538 | unescapes in place; what is written stays behind what is still to be read |
| JsonParser.Parser.Unescape | c++-framework/lib/crow/json.h:480-542 | leaves the value its text and everything else alone; a copy taken before reads the same afterwards if and only if there was nothing to unescape |
| JsonParser.Parser.DecodeNumber | c++-framework/lib/crow/json.h:1002-1126 | the state tables with their inner loop over digits |
| JsonParser.Parser.DecodeValue | c++-framework/lib/crow/json.h:1129-1181 | reads what the grammar gives, and overwrites nothing before it |
| JsonParser.Parser.DecodeList | c++-framework/lib/crow/json.h:962-1000 | the same for a list, whose depth is checked |
| JsonParser.Parser.DecodeItems | c++-framework/lib/crow/json.h:977-998 | the loop over the items |
| JsonParser.Parser.DecodeObject | c++-framework/lib/crow/json.h:1183-1244 | the same for an object |
| JsonParser.Parser.DecodeKey | c++-framework/lib/crow/json.h:1204-1222 | a key is unescaped at once, in place |
| JsonParser.Parser.DecodeEntry | c++-framework/lib/crow/json.h:1204-1233 | one entry |
| JsonParser.Parser.DecodeEntries | c++-framework/lib/crow/json.h:1202-1242 | the loop over the entries |
| JsonParser.Parser.Parse | c++-framework/lib/crow/json.h:1246-1254 | one value, blanks around it, and the end of the text |
| JsonParser.Load | c++-framework/lib/crow/json.h:1260-1271 | the value read from a copy is the one that the grammar gives, and an error is reported if and only if there is none |
| JsonWriter.Output.Escape | c++-framework/lib/crow/json.h:45-71 | the loop appends the escaped string |
| JsonWriter.Output.DumpString | c++-framework/lib/crow/json.h:1838-1843 | a string between quotes |
| JsonWriter.Output.DumpIndentationPart | c++-framework/lib/crow/json.h:1845-1849 | a new line and its indentation |
| JsonWriter.Output.DumpInternal | c++-framework/lib/crow/json.h:1852-2028 | appends the text of a value |
| JsonWriter.Output.DumpList | c++-framework/lib/crow/json.h:1944-1979 | the loop over a list |
| JsonWriter.Output.DumpObject | c++-framework/lib/crow/json.h:1980-2022 | the loop over an object |
| JsonWriter.DumpToString | c++-framework/lib/crow/json.h:2031-2037 | the text of a value from its start |
| JsonDocuments.ParseIff | c++-framework/lib/crow/json.h:888-1255 | a text is accepted if and only if it is a document between white space, in any layout, with any escapes, nested at most 5000 deep; then its value is read |
| JsonDocuments.DocParses | c++-framework/lib/crow/json.h:1129-1244 | every such document is read to its end as its value, at any place and depth |
| JsonDocuments.DocFound | c++-framework/lib/crow/json.h:1129-1244 | whatever the parser reads is such a document |
| JsonStandard.PiecesParse | c++-framework/lib/crow/json.h:902-960 | a string of characters and escapes is read as what they spell |
| JsonStandard.PiecesFound | c++-framework/lib/crow/json.h:902-960 | whatever the parser takes for a string is made of such pieces |
| JsonStandard.Utf8Is | c++-framework/lib/crow/json.h:514-528 | a code is written in its UTF-8 form as section 3 of RFC 3629 has it |
| JsonStandard.CodeIs | c++-framework/lib/crow/json.h:502-528 | the four digits of a code count by their places, capital or small |
| JsonStandard.HexIs | c++-framework/lib/crow/json.h:502-513 | the hexadecimal digits and their values |
| JsonStandard.ShortIs | c++-framework/lib/crow/json.h:490-499 | the escapes of one letter |
| JsonStandard.NumEnds | c++-framework/lib/crow/json.h:1002-1126 | which numbers the state tables read to their end |
| JsonStandard.NumFound | c++-framework/lib/crow/json.h:1002-1126 | and that they read no others |
| JsonDocuments.ListLayout | c++-framework/lib/crow/json.h:1944-1979 | a written list is its items, each on a line of its own one level deeper, commas between them |
| JsonDocuments.ObjectLayout | c++-framework/lib/crow/json.h:1980-2022 | a written object likewise |
| JsonDocuments.IndentationIs | c++-framework/lib/crow/json.h:1845-1849 | a new line and the indentation of its level, or nothing |
| JsonDocuments.EscapesAre | c++-framework/lib/crow/json.h:45-71 | which characters are written as they are, as an escape of one letter or as a code |
| WebSocketMessages.Reassembled | c++-framework/lib/crow/websocket.h:614-712 | whatever fragments the messages were cut into and whatever control frames stand between them, the handler gets the messages in order, with their kind, and every ping its pong |
| WebSocketMessages.ControlsBetween | c++-framework/lib/crow/websocket.h:614-712 | control frames change nothing in what is being put together |
| WebSocketMessages.PiecesJoin | c++-framework/lib/crow/websocket.h:625-659 | the fragments of one message are put together to it |
| WebSocketFrames.HeaderIsShortest | c++-framework/lib/crow/websocket.h:298-319 | the header is that of a final unmasked frame in the shortest length form, on hosts of either byte order |
| WebSocketFrames.NetworkOrder | c++-framework/lib/crow/websocket.h:385-450 | ntohs and ntohl of what lies in memory give its value in network order |
| WebSocketFrames.NetworkOrder64 | c++-framework/lib/crow/websocket.h:485-485 | the exchange of the halves of 64 bits does the same for eight bytes, on hosts of either byte order |
| WebSocketFrames.StoredSwapped64 | c++-framework/lib/crow/websocket.h:316-316 | the same exchange before storing leaves the bytes in network order |
| WebSocketFrames.MaskedTwice | c++-framework/lib/crow/websocket.h:616-622 | masking twice with one key gives the payload back |
| WebSocketConnection.HeaderBits | c++-framework/lib/crow/websocket.h:392-424 | the first two bytes give back FIN, opcode, mask bit and length bits |
| WebSocketConnection.LengthReads | c++-framework/lib/crow/websocket.h:437-508 | the extended length is read back |
| WebSocketConnection.PeerReads | c++-framework/lib/crow/websocket.h:780-786 | the bytes that a connection writes are frames that carry what it sent; with Deliver, a peer gets the same messages |
| WebSocketConnection.HandleAllFrom | c++-framework/lib/crow/websocket.h:614-712 | handling frames one after the other |
| WebSocketConnection.Connection.Deliver | c++-framework/lib/crow/websocket.h:355-712 | for every well-formed sequence of frames and every way the bytes come in, exactly the messages reach the handler, unmasked, and the pongs are posted |
| WebSocketConnection.Connection.ReadAll | c++-framework/lib/crow/websocket.h:355-596 | all frames up to a Close frame or one that is too long are handled; a Close is answered once and ends the connection |
| WebSocketConnection.Connection.ReadFrame | c++-framework/lib/crow/websocket.h:355-596 | one frame: its effect, and where the reader stands afterwards; reading enqueues nothing behind a Close frame and sends nothing behind one |
| WebSocketConnection.Connection.ReadFragment | c++-framework/lib/crow/websocket.h:355-596 | the reads that bring a frame in, in however many parts |
| WebSocketConnection.Connection.ReadMiniHeader | c++-framework/lib/crow/websocket.h:369-435 | the first two bytes and the state they lead to |
| WebSocketConnection.Connection.ReadLen16 | c++-framework/lib/crow/websocket.h:437-473 | the 16-bit length |
| WebSocketConnection.Connection.ReadLen64 | c++-framework/lib/crow/websocket.h:475-508 | the 64-bit length |
| WebSocketConnection.Connection.ReadMask | c++-framework/lib/crow/websocket.h:510-556 | refuses a payload that is too long, and else reads the key |
| WebSocketConnection.Connection.ReadPayload | c++-framework/lib/crow/websocket.h:558-580 | takes as much of the payload as has come |
| WebSocketConnection.Connection.Unmask | c++-framework/lib/crow/websocket.h:616-622 | the masking is undone in place by the exclusive or of WebSocketLaws.XorIsExclusive |
| WebSocketConnection.Connection.HandleFragment | c++-framework/lib/crow/websocket.h:614-712 | what a complete frame does to messages, answers and the closing handshake |
| WebSocketConnection.Connection.HandleClose | c++-framework/lib/crow/websocket.h:660-697 | a Close is answered with its own status code and reason, 1005 standing for a missing code; the handler is called once |
| WebSocketConnection.Connection.Conserved | c++-framework/lib/crow/websocket.h:718-752 | written bytes, then what is being sent, then what waits, are all that was ever enqueued, in order |
| WebSocketConnection.Connection.Run | c++-framework/lib/crow/websocket.h:718-796 | any run of sends, closes and ends of writes: frames go out in the order of the calls, and unless a write fails no byte is lost, doubled or moved; nothing is enqueued behind a Close frame if and only if, once one was sent, nobody closes again and no posted call runs; nothing is taken into a write behind a Close frame if and only if that holds up to every start of a write |
| WebSocketConnection.Connection.Drain | c++-framework/lib/crow/websocket.h:731-750 | two ends of writes at most bring everything onto the wire; if the connection is being closed, only what is being sent, and what waits is never sent |
| WebSocketConnection.Connection.constructor | c++-framework/lib/crow/websocket.h:325-346 | the answer to the upgrade request is the first to be written |
| WebSocketConnection.Connection.DoWrite | c++-framework/lib/crow/websocket.h:718-731 | starts a write of all that waits unless one is outstanding |
| WebSocketConnection.Connection.Enqueue | c++-framework/lib/crow/websocket.h:780-786 | header and payload are put behind all that waits, side by side |
| WebSocketConnection.Connection.SendDataImpl | c++-framework/lib/crow/websocket.h:780-786 | a frame for one payload |
| WebSocketConnection.Connection.RunPosted | c++-framework/lib/crow/websocket.h:774-786 | the first posted call builds its frame; the queue stays in order if and only if it was and no Close frame was sent before |
| WebSocketConnection.Connection.WriteCompleted | c++-framework/lib/crow/websocket.h:731-750 | the end of a write: what was sent is written or lost, and what waits is sent |
| WebSocketConnection.Connection.Close | c++-framework/lib/crow/websocket.h:259-278 | a Close frame with code and reason, and the close handler at most once; the queue stays in order if and only if it was and no Close frame was sent before |
| WebSocketConnection.DataBehindClose | c++-framework/lib/crow/websocket.h:259-278 | a run in which a text frame sent while the Close frame is being written goes out behind it, against section 5.5.1 of RFC 6455 |
| WebSocketConnection.DataStranded | c++-framework/lib/crow/websocket.h:731-750 | a run in which such a frame stands behind the Close frame in the queue but never goes out, because the connection is being closed |
| WebSocketConnection.Connection.Perform | c++-framework/lib/crow/websocket.h:718-796 | one event: what is enqueued, and whether it starts a write, which then takes all that is enqueued |
| WebSocketLaws.XorIsExclusive | c++-framework/lib/crow/websocket.h:616-622 | masking is the exclusive or, bit by bit |
| WebSocketLaws.MaskedAt | c++-framework/lib/crow/websocket.h:616-622 | byte i is masked with byte i mod 4 of the key |
| WebSocketLaws.ZeroKey | c++-framework/lib/crow/websocket.h:616-622 | with the key 0 the payload stays as it is |
| WebSocketLaws.FrameEffects | c++-framework/lib/crow/websocket.h:614-712 | what each kind of frame does: a message is its fragments put together, a ping gets its pong |
| WebSocketLaws.PongForPing | c++-framework/lib/crow/websocket.h:698-707 | every ping is answered with its own payload, and nothing else is |
| WebSocketLaws.MessageOfParts | c++-framework/lib/crow/websocket.h:625-659 | a message is its parts put together, with its kind |
| WebSocketLaws.CloseEchoes | c++-framework/lib/crow/websocket.h:660-697 | a Close is answered with its own payload, or with code 1005 in front if it has no code |
| WebSocketLaws.EightBytes | c++-framework/lib/crow/websocket.h:475-508 | lengths stand in network order |
| WebSocketLaws.HeaderBytes | c++-framework/lib/crow/websocket.h:298-319 | the bytes of a header |
| WebSocketLaws.WireBytes | c++-framework/lib/crow/websocket.h:392-424 | the two bytes and the key of a short frame |
| SessionServer.Server.Run | c++-framework/lib/crow/middlewares/session.h:326-402 | whatever requests do and however their steps interleave, the sessions are what they would be without a cache; SessionLaws and ReadBack say what that is |
| SessionServer.Server.Do | c++-framework/lib/crow/middlewares/session.h:326-402 | each step is the step without the cache |
| SessionServer.Server.Begin | c++-framework/lib/crow/middlewares/session.h:327-363 | a request begins |
| SessionServer.Server.Change | c++-framework/lib/crow/middlewares/session.h:229-264 | a request sets or removes a value |
| SessionServer.Server.End | c++-framework/lib/crow/middlewares/session.h:366-402 | a request ends |
| SessionServer.Server.CachedInUse | c++-framework/lib/crow/middlewares/session.h:336-342 | a cached session is in use |
| SessionPlain.NothingLost | c++-framework/lib/crow/middlewares/session.h:440-457 | at the end of a run a session holds exactly what the requests on it did, in order, unless a request without a session is given its identifier |
| SessionPlain.NothingLostIff | c++-framework/lib/crow/middlewares/session.h:366-457 | whatever a session holds at first, it holds at the end what the requests on it made of that, if and only if its identifier is not given to a request without a session |
| SessionCache.SessionMiddleware.BeforeHandle | c++-framework/lib/crow/middlewares/session.h:327-363 | a request whose cookie names a session gets the one node of that session, with its entries, from the cache or the store; every other gets none; no session and no other request changes |
| SessionCache.SessionMiddleware.Share | c++-framework/lib/crow/middlewares/session.h:336-342 | a cached node gets one more holder |
| SessionCache.SessionMiddleware.LoadNode | c++-framework/lib/crow/middlewares/session.h:344-362 | a stored session becomes cached, with one holder |
| SessionCache.SessionMiddleware.Change | c++-framework/lib/crow/middlewares/session.h:229-264 | the value is set or removed in the request's node, which is made if there is none; a change reaches the session of the request and nothing else |
| SessionCache.SessionMiddleware.AfterHandle | c++-framework/lib/crow/middlewares/session.h:366-402 | the last holder writes back; entries without a session get the made-up identifier, and are lost if and only if a cached session has it; the cookie is set when it must be |
| SessionCache.SessionMiddleware.Release | c++-framework/lib/crow/middlewares/session.h:369-369 | a holder leaves others behind |
| SessionCache.SessionMiddleware.EndNamed | c++-framework/lib/crow/middlewares/session.h:382-401 | the last holder of a cached session ends |
| SessionCache.SessionMiddleware.EndUnnamed | c++-framework/lib/crow/middlewares/session.h:372-381 | the only holder of entries without a session ends |
| SessionCache.SessionMiddleware.LastHolder | c++-framework/lib/crow/middlewares/session.h:369-369 | a count of one means one holder |
| SessionCache.Context.Set | c++-framework/lib/crow/middlewares/session.h:229-236 | sets a value, making a node if there is none: Get then gives it, and what it gives for other keys is left |
| SessionCache.Context.Remove | c++-framework/lib/crow/middlewares/session.h:258-264 | removes a value: Get then gives the fallback, and what it gives for other keys is left |
| SessionCache.InMemoryStore.Load | c++-framework/lib/crow/middlewares/session.h:444-448 | moves the entries out of the store |
| SessionCache.InMemoryStore.Save | c++-framework/lib/crow/middlewares/session.h:451-455 | moves them back |
| SessionServer.Server.ReadBack | c++-framework/lib/crow/middlewares/session.h:229-402 | a value that a request with the cookie of a session sets is what a request with that cookie reads later, however they interleave and whether the session was cached in between or not; a removed one gives the fallback |
| SessionServer.Server.ReadUntouched | c++-framework/lib/crow/middlewares/session.h:327-402 | what nobody sets or removes is read as it was in the store |
| SessionServer.Server.Reads | c++-framework/lib/crow/middlewares/session.h:211-225 | a request reads what its session holds |
| SessionServer.Server.QuietStored | c++-framework/lib/crow/middlewares/session.h:382-401 | the entries of a session that nobody works on are in the store |
| SessionLaws.LastWriteWins | c++-framework/lib/crow/middlewares/session.h:229-402 | over whole runs, told by the cookies alone: the last Set or Remove of a key by a request with the cookie of the session stands, unless the identifier is given away again |
| SessionLaws.UntouchedStays | c++-framework/lib/crow/middlewares/session.h:229-402 | and a key that no such request touches stays as it was |
| SessionLaws.SessionOf | c++-framework/lib/crow/middlewares/session.h:327-363 | a running request works on a session that was there if and only if it began with its cookie |
| SessionLaws.NewSession | c++-framework/lib/crow/middlewares/session.h:366-381 | what a request without a session sets is in a new session at its end, under the identifier made up for it |
| SessionLaws.OwnWrite | c++-framework/lib/crow/middlewares/session.h:229-236 | and is its own until then |
| SessionCache.SessionMiddleware.OneNode | c++-framework/lib/crow/middlewares/session.h:336-342 | all running requests on a session share one node |
| SessionCache.SessionMiddleware.ReadsSession | c++-framework/lib/crow/middlewares/session.h:211-225 | what such a request reads is what the session holds |
| NeuralNetworks.NeuralNetwork.Train | c++-framework/Src/NeuralNetwork.cpp:21-70 | the weights after training are those of the given number of epochs over the normalised mini-batches, each step against the gradient of its batch, and the accuracy is the mean over the last epoch; the sums over the classes of the last layer's biases and of each column of its weights never change |
| NeuralNetworks.NeuralNetwork.TrainStep | c++-framework/Src/NeuralNetwork.cpp:36-55 | one mini-batch: every layer's step from the weights before it, the accuracy before the step, and the same sums kept |
| NeuralNetworks.NeuralNetwork.Gradient | c++-framework/Src/NeuralNetwork.cpp:41-53 | the gradient that training starts from, which cancels in every column, and the accuracy of the forward pass |
| NeuralNetworks.NeuralNetwork.Learn | c++-framework/Src/NeuralNetwork.cpp:128-135 | every layer's new weights, and the sums that they keep |
| NeuralNetworks.NeuralNetwork.ForwardPropagation | c++-framework/Src/NeuralNetwork.cpp:115-126 | each layer is fed with what the one before gives, and keeps what the backward pass needs |
| NeuralNetworks.NeuralNetwork.BackwardPropagation | c++-framework/Src/NeuralNetwork.cpp:128-135 | each layer makes its step from what the layer behind it passed on, which comes from the weights before that layer's step |
| NeuralNetworks.NeuralNetwork.Predict | c++-framework/Src/NeuralNetwork.cpp:137-144 | the layers' fast forms one after the other |
| NeuralNetworks.NeuralNetwork.FastIsForward | c++-framework/Src/NeuralNetwork.cpp:115-144 | up to a softmax layer prediction is the forward pass |
| NeuralNetworks.NeuralNetwork.FastIsAsAccurate | c++-framework/Src/NeuralNetwork.cpp:115-144 | if only the last layer is softmax, prediction gives its input, which is exactly as accurate as the probabilities |
| NeuralNetworks.NeuralNetwork.Normalize | c++-framework/Src/NeuralNetwork.cpp:185-228 | what is normalised with which statistics, in training and in use |
| NeuralNetworks.NeuralNetwork.NormalizeBoth | c++-framework/Src/NeuralNetwork.cpp:73-78 | on a fresh network validation data is normalised like the training data; otherwise with the statistics of the first training |
| NeuralNetworks.NeuralNetwork.LossCancels | c++-framework/Src/NeuralNetwork.cpp:41-53 | the gradient of the loss after a softmax layer sums to zero over the classes |
| NeuralNetworks.NeuralNetwork.BackedConserves | c++-framework/Src/Layer Types/DenseLayer.cpp:147-247 | a softmax layer's step from such a gradient keeps the sums |
| NeuralData.NormalSums | c++-framework/Src/NeuralNetwork.cpp:193-215 | a normalised feature sums to zero, and its squares to the number of examples unless it is constant |
| NeuralData.NormalizeFeature | c++-framework/Src/NeuralNetwork.cpp:193-215 | the three loops over a feature |
| NeuralData.ApplyStatistics | c++-framework/Src/NeuralNetwork.cpp:217-225 | the loop with known statistics |
| NeuralData.MiniBatches | c++-framework/Src/NeuralNetwork.cpp:147-183 | inputs and targets are cut at the same columns |
| NeuralData.CutsPartition | c++-framework/Src/NeuralNetwork.cpp:147-183 | mini-batches are neighbours of the given size, but for the last, which is smaller or equal and not empty |
| NeuralData.BatchesJoin | c++-framework/Src/NeuralNetwork.cpp:147-183 | put together again the mini-batches are the whole |
| NeuralGradient.Adjoint | c++-framework/Src/Layer Types/DenseLayer.cpp:158-213 | the gradients are the exact adjoint of the affine step: for every change of weights, biases and inputs, its effect as dz sees it is what they say, the gradient of the inputs taken from the weights before the step |
| NeuralGradient.AffineChange | c++-framework/Src/Layer Types/DenseLayer.cpp:53-53 | the tangent in that statement is the change of w x + b up to the product of the two small changes |
| NeuralGradient.WeightAdjoint | c++-framework/Src/Layer Types/DenseLayer.cpp:165-165 | the gradient of the weights |
| NeuralGradient.BiasAdjoint | c++-framework/Src/Layer Types/DenseLayer.cpp:173-173 | the gradient of the biases |
| NeuralGradient.InputAdjoint | c++-framework/Src/Layer Types/DenseLayer.cpp:213-213 | the gradient of the inputs |
| NeuralGradient.ColumnsCancel | c++-framework/Src/Layer Types/DenseLayer.cpp:158-175 | if every column of dz sums to zero, so do the gradients of the biases and of each column of the weights |
| NeuralLayer.DenseLayer.Forward | c++-framework/Src/Layer Types/DenseLayer.cpp:50-77 | z, a and aPrev after the forward pass |
| NeuralLayer.DenseLayer.Predict | c++-framework/Src/Layer Types/DenseLayer.cpp:91-101 | the three loops of prediction |
| NeuralLayer.DenseLayer.ForwardOpt | c++-framework/Src/Layer Types/DenseLayer.cpp:285-301 | the three loops of the fast forward pass |
| NeuralLayer.DenseLayer.Backward | c++-framework/Src/Layer Types/DenseLayer.cpp:147-247 | each weight and bias goes down by the rate times its gradient, what the layer computes for the same inputs moves downhill accordingly, and what is passed on comes from the weights before the step |
| NeuralLayer.DenseLayer.DeltaFrom | c++-framework/Src/Layer Types/DenseLayer.cpp:160-161 | dz from da |
| NeuralLayer.FastForm | c++-framework/Src/Layer Types/DenseLayer.cpp:91-101 | entry by entry activation is the same unless the layer is softmax; then it gives softmax's input |
| NeuralLayer.StepKeepsColumn | c++-framework/Src/Layer Types/DenseLayer.cpp:216-216 | a step against a column that sums to zero keeps the sum |
| NeuralSoftmax.SoftmaxColumn | c++-framework/Src/Essential Functions/Activation Factory/Activaton Functions/Softmax.cpp:34-54 | the columns of a softmax sum to one |
| NeuralSoftmax.SoftmaxArgmax | c++-framework/Src/Essential Functions/Activation Factory/Activaton Functions/Softmax.cpp:34-54 | softmax keeps which entry of a column is the first largest |
| NeuralSoftmax.SoftmaxUnshifted | c++-framework/Src/Essential Functions/Activation Factory/Activaton Functions/Softmax.cpp:34-54 | with the law of the exponential function the shift by the maximum cancels |
| NeuralSoftmax.Activate | c++-framework/Src/Essential Functions/Activation Factory/Activaton Functions/Softmax.cpp:34-54 | the loops over the columns compute softmax |
| NeuralSoftmax.LossDerivative | c++-framework/Src/Essential Functions/Loss Factory/Loss Functions/CategoricalCrossEntropy.cpp:113-127 | one is taken from the prediction of the right class |
| NeuralSoftmax.GradientCancels | c++-framework/Src/Essential Functions/Loss Factory/Loss Functions/CategoricalCrossEntropy.cpp:113-127 | after a softmax that gradient sums to zero in every column |
| NeuralSoftmax.Accuracy | c++-framework/Src/Essential Functions/ModelEvaluator.cpp:12-26 | the share of examples whose first largest prediction is that of their class |
| NeuralSoftmax.ArgmaxIsFirst | c++-framework/Src/Essential Functions/ModelEvaluator.cpp:13-22 | what the loop finds is the first of the largest entries |
| NeuralSoftmax.EquallyRight | c++-framework/Src/Essential Functions/ModelEvaluator.cpp:12-26 | probabilities and the inputs of the softmax are equally accurate |
| NeuralMath.DotProduct | c++-framework/Src/Essential Functions/Math Utils/DotProduct.cpp:37-55 | the product of two matrices, or an exception |
| NeuralMath.DotVector | c++-framework/Src/Essential Functions/Math Utils/DotProduct.cpp:16-33 | the product of a matrix and a vector, or an exception |
| NeuralMath.Transpose | c++-framework/Src/Essential Functions/Math Utils/Transpose.cpp:5-25 | the transpose, or an exception |
| NeuralMath.Divide | c++-framework/Src/Essential Functions/Math Utils/ElementWiseOperations.cpp:126-137 | division of a matrix by a number |
| NeuralMath.Scale | c++-framework/Src/Essential Functions/Math Utils/ElementWiseOperations.cpp:55-67 | a matrix times a number |
| NeuralMath.Product | c++-framework/Src/Essential Functions/Math Utils/ElementWiseOperations.cpp:19-34 | the product entry by entry, or an exception |
| NeuralMath.Subtract | c++-framework/Src/Essential Functions/Math Utils/ElementWiseOperations.cpp:233-248 | the difference of two matrices, or an exception |
| NeuralMath.AddVector | c++-framework/Src/Essential Functions/Math Utils/ElementWiseOperations.cpp:178-193 | a vector added to every column, or an exception |
| NeuralMath.DivideVector | c++-framework/Src/Essential Functions/Math Utils/ElementWiseOperations.cpp:139-146 | division of a vector by a number |
| NeuralMath.ScaleVector | c++-framework/Src/Essential Functions/Math Utils/ElementWiseOperations.cpp:70-77 | a vector times a number |
| NeuralMath.SubtractVector | c++-framework/Src/Essential Functions/Math Utils/ElementWiseOperations.cpp:221-230 | the difference of two vectors, or an exception |
| NeuralLayer.StepDescends | c++-framework/Src/Layer Types/DenseLayer.cpp:158-217 | a step moves what the layer computes for the same inputs against dz, by the learning rate times the number of examples times the squares of both gradients |
| NeuralLayer.Downhill | c++-framework/Src/Layer Types/DenseLayer.cpp:216-217 | so with a positive rate it goes downhill, and stands still if and only if both gradients are zero |
| NeuralLayer.DeltaAdjoint | c++-framework/Src/Layer Types/DenseLayer.cpp:160-161 | dz sees a change of z as da sees the change of the activations |
| NeuralLayer.StepEntries | c++-framework/Src/Layer Types/DenseLayer.cpp:216-217 | each weight and bias less its gradient times the rate |
| NeuralLayer.GradientSquares | c++-framework/Src/Layer Types/DenseLayer.cpp:216-216 | the squares of a gradient are positive unless it is zero everywhere |
| NeuralNetworks.NeuralNetwork.TrainEpoch | c++-framework/Src/NeuralNetwork.cpp:36-60 | all mini-batches once, in order, and the mean of their accuracies |
| NeuralNetworks.NeuralNetwork.Prepared | c++-framework/Src/NeuralNetwork.cpp:26-33 | the normalised input and the targets, cut into mini-batches |
| NeuralSoftmax.RightCounts | c++-framework/Src/Essential Functions/ModelEvaluator.cpp:12-26 | the examples that count as right are those whose target is the row of the first of their largest predictions |
| Base64.RoundTrips | c++-framework/lib/crow/utility.h:560-684 | decoding undoes encoding with both alphabets, the padding kept or left out |
| Base64.RoundTrip | c++-framework/lib/crow/utility.h:560-684 | the same for any alphabet in which every character stands for its place |
| Base64.BytesRead | c++-framework/lib/crow/utility.h:641-682 | the decoder needs the characters of the alphabet only |
| Base64.SameBits | c++-framework/lib/crow/utility.h:567-574 | four characters hold the 24 bits of three bytes, in order |
| Base64.BytesBack | c++-framework/lib/crow/utility.h:641-660 | and give the bytes back |
| Base64.BothAlphabets | c++-framework/lib/crow/utility.h:560-608 | the standard and the url-safe alphabet |
| Base64.PaddingLast | c++-framework/lib/crow/utility.h:578-592 | the characters of the alphabet come first, the padding last |
| Base64.Encoded | c++-framework/lib/crow/utility.h:560-594 | the encoded text is four thirds as long, rounded up |
| Base64.Encode | c++-framework/lib/crow/utility.h:560-594 | the loop and its two ends |
| Base64.OutputSize | c++-framework/lib/crow/utility.h:626-643 | the decoded size is covered by the text; it is negative for the text "=" only |
| Base64.Decode | c++-framework/lib/crow/utility.h:611-684 | the loop and its two ends; it fails for the text "=" only |
| Base64.EncodedBits | c++-framework/lib/crow/utility.h:560-594 | the places of the characters in the alphabet hold the bits of the bytes in their order, zeros behind the last one |
| Base64.DecodedBits | c++-framework/lib/crow/utility.h:641-682 | the decoded bytes hold the bits of the places of the characters in their order, whatever the text |
| Base64.AlphabetsAre | c++-framework/lib/crow/utility.h:560-608 | the alphabets are those of tables 1 and 2 of RFC 4648 |
| Base64.OtherCharacters | c++-framework/lib/crow/utility.h:641-682 | characters of neither alphabet stand for zero |

## Left out

- HTTP: the request line and `qs_point`, pipelined messages, pausing, and callbacks that fail.
- HttpMessage.IdentityRequest: its header lines are not folded; HttpFolds.FoldRead says for one header what a fold does.
- Routing: blueprint indices, catch-all rules, redirects and the compile-time parts of `routing.h`.
- Routing.Trie.Find: takes `strtod` as a parameter, so what a floating-point parameter's text is worth is not modelled; nodes are values in the model, and a change of the tree replaces it.
- Mustache: dotted names, partials, lambdas and indentation, because rendering them calls back into file loading and user code; templates cached by name.
- JSON: floating-point numbers in `dump`, functions, sorting and lookup of keys in `rvalue`, and comparison of strings.
- JsonParser.Parser.DecodeList: an error gives a value that is only marked as one; the items read before it are not kept.
- WebSocket: the handshake's digest, `check_destroy` and the lifetime of a connection, threads, and reads that fail.
- WebSocketConnection.Connection.ReadMiniHeader: a first read of one byte only is not modelled.
- Sessions: `FileStore` with its expirations, cookies and their attributes, and the node's mutex, steps being atomic.
- SessionPlain.NothingLostIff: asks that no identifier in use is made up, because `random_alphanum` is not modelled; AfterHandle says what such a step does.
- Training engine: dropout, L2 regularisation, loss values, sigmoid cross entropy, random initialisation, rounding, and the message sent after each epoch.
- NeuralNetworks.NeuralNetwork.Train: holds for a softmax layer at the end and targets that are class numbers; other losses conserve nothing.
- The Express server, the React view, the database models, compression, multipart bodies, CORS and query strings: plumbing around the parts modelled here.
