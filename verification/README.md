# HTTP parsing, list locking and bounded queues, in Dafny

This project models three parts of the repository and proves what they are for.

- **The HTTP parser and chunked decoder** (`lab3/code/libparser`). `ChunkedSpec` is the decoder as
  an automaton over single octets; `ChunkedDecoder` is the C function, a class with its fields that
  rewrites a buffer in place; `ChunkedCodec` is the grammar of section 4.1 of RFC 7230.
  `HttpSpec` says what the parsers compute one octet at a time; `HttpScans` and `HttpParser` are the
  C loops, with the 16-octet block scans (parameter `sse`) or without, and `HttpOutputs` says what they leave
  in their out-parameters. `HttpStability`, `HttpLocality`, `HttpShortcut` and `HttpResume` are about buffers
  that grow; `HttpMessages` says what the spans of an accepted message spell, `HttpGrammar` is the
  grammar of what is accepted, and `HttpRefusal` says what is refused, and when.
- **The concurrent linked list** (`lab2/code/2.3`). `ListProtocol` is a step relation over links,
  locks and the program points of any number of threads, for the read/write-lock and the mutex
  build; each lock operation and each of the three writes of a swap is a step. `chain` is the
  list as meant. `ListInvariant` and `ListProgress` prove safety and freedom from deadlock over every
  interleaving; `ListCounting` says what a counter's pass compares and counts, `ListSwaps` that every swap is
  made, once; `ListPaths`, `ListReach` and `ListTour` say which lists can be reached; `ListStorage` is the
  sequential code on heap nodes.
- **The producer/consumer queues** (`lab2/code/2.2`). `QueueFifo` is the linked queue on the heap,
  proved against the value in `QueueValue`; `QueueMutex`, `QueueSem` and `QueueCond` interleave it under the
  three protocols.

Methods that follow a C loop are tied by their `ensures` to a specification function, and the
properties are lemmas about that function. A parser result is `Ok(value, position)`, `Partial` (-2)
or `Bad` (-1). A run is a sequence of states from an initial one in which some thread takes each step.

Five things hold of the code only under a condition, which is proved to be the exact one:

- The shortcut for a caller that comes back with a longer buffer does not change accepted requests and
  responses, but `phr_parse_headers` also accepts a lone blank line, which the shortcut does
  not recognise unless two adjacent line ends happen to be found in the buffer
  (`HttpResume.HeadersShortcutFails`, `HttpResume.HeadersShortcut`).
- The semaphore queue destroys itself, and the condition-variable queue never moves anything, when the
  capacity is 0; the latter also when the flag that `queueInit` leaves unset happens to hold
  `PROHIBIT_SHARE` (`QueueSem.SurvivesIffRoom`, `QueueCond.WorksIffWellStarted`).
- The condition-variable queue never comes to a stop with one producer and one consumer, and only then: with
  any other threads a signal can reach one that may not go on (`QueueCond.NeverStuckIffPair`).
- A header block is refused as soon as nothing could make it acceptable any more, but requests and responses
  are refused later when there is no method, when a version or a status is cut short by the end of the
  buffer, or when no space stands behind a status (`HttpRefusal.RequestHopelessExactly`,
  `HttpRefusal.ResponseHopelessExactly`).
- With two swappers every two neighbours behind the first node can be exchanged and nothing else changed.
  With one, whose swaps follow one another down the list, that is so only at the front and at the end
  (`ListTour.WhichExchanges`, `ListTour.MiddleOfFive`).

Where the header file says that the buffer size is updated on return without an error, the code updates
it, and closes the gap in the buffer, on an error too; the model follows the code.

## Model

| member | source | states |
|---|---|---|
| ChunkedSpec.DecodeHexIs | lab3/code/libparser/picohttpparser.c:579-589 | the octets 0-9, a-f and A-F, and no other, are digits, each with its value |
| ChunkedSpec.TakeDigit | lab3/code/libparser/picohttpparser.c:603-616 | a digit accepted by the 16-digit guard: `left * 16 + v` is below 2^64, so the `size_t` update does not wrap, and the new decoder is valid |
| ChunkedSpec.StepValid | lab3/code/libparser/picohttpparser.c:596-697 | one octet keeps every decoder valid: in the size state the value is below 16 to the number of digits read, at most 16; in the data state it is positive and fits a `size_t`; trailer states only with `consume_trailer` |
| ChunkedSpec.RunValid | lab3/code/libparser/picohttpparser.c:591-706 | the same across any number of octets, so across calls |
| ChunkedSpec.RunConcat | lab3/code/libparser/picohttpparser.c:591-706 | feeding a + b is feeding a, then, if that was incomplete, b to the decoder it left |
| ChunkedSpec.SplitInvariance | lab3/code/libparser/picohttpparser.h:79-88 | however an input is cut into pieces, feeding them one after the other up to the first verdict other than incomplete gives the verdict, decoder, payload and octets consumed of one call on the whole |
| ChunkedSpec.RunData | lab3/code/libparser/picohttpparser.c:641-657 | n octets inside a chunk are payload one for one, which is why the bulk move may replace the octet loop |
| ChunkedSpec.HexValueBound | lab3/code/libparser/picohttpparser.c:579-616 | the number written by n hex digits is below 16^n |
| ChunkedSpec.RunDigits | lab3/code/libparser/picohttpparser.c:598-617 | any digits in either case, at most 16 with those of earlier calls, accumulate the number they all write |
| ChunkedDecoder.MemMove | lab3/code/libparser/picohttpparser.c:644-652 | an overlapping move: the target holds the octets that were in the source, nothing else changes |
| ChunkedDecoder.KeepData | lab3/code/libparser/picohttpparser.c:643-654 | moving payload down appends exactly those octets to the output and leaves every octet not yet read as received |
| ChunkedDecoder.CloseGap | lab3/code/libparser/picohttpparser.c:701-703 | on exit the unconsumed suffix lies directly behind the payload; payload and the memory behind the buffer are untouched |
| ChunkedDecoder.ChunkedDecoder.constructor | lab3/code/libparser/picohttpparser.h:70-77 | the zero-filled decoder |
| ChunkedDecoder.ChunkedDecoder.IsInData | lab3/code/libparser/picohttpparser.c:708-711 | true exactly when whatever octet comes next is payload |
| ChunkedDecoder.ChunkedDecoder.DecodeSize | lab3/code/libparser/picohttpparser.c:598-619 | the size loop, with wrapping `size_t` arithmetic, leaves the fields where the automaton is after the octets it passed, or stops with its verdict |
| ChunkedDecoder.ChunkedDecoder.DecodeExt | lab3/code/libparser/picohttpparser.c:621-639 | the same for the extension and the choice of what follows the line |
| ChunkedDecoder.ChunkedDecoder.DecodeData | lab3/code/libparser/picohttpparser.c:641-657 | the same for the bulk move, with the payload so far in front of the buffer and the unread octets still original |
| ChunkedDecoder.ChunkedDecoder.DecodeCrlf | lab3/code/libparser/picohttpparser.c:659-672 | the same for the line end behind the data |
| ChunkedDecoder.ChunkedDecoder.DecodeTrailerHead | lab3/code/libparser/picohttpparser.c:673-682 | the same for the start of a trailer line |
| ChunkedDecoder.ChunkedDecoder.DecodeTrailerMiddle | lab3/code/libparser/picohttpparser.c:684-693 | the same for the rest of a trailer line |
| ChunkedDecoder.ChunkedDecoder.DecodeCase | lab3/code/libparser/picohttpparser.c:597-697 | one pass of the switch: `dst <= src <= bufsz`, payload in front, unread octets original, and octets are consumed unless the function is left |
| ChunkedDecoder.ChunkedDecoder.DecodeLoop | lab3/code/libparser/picohttpparser.c:593-697 | the loop ends, with verdict, fields, payload and position of the octet automaton run on the original buffer |
| ChunkedDecoder.ChunkedDecoder.Decode | lab3/code/libparser/picohttpparser.c:591-706 | in-place decoding refines the octet automaton: return code -2, -1 or octets left, the new size, the payload followed by exactly the unconsumed octets, the final fields; memory behind the buffer unchanged |
| ChunkedDecoder.DecodePiece | lab3/code/libparser/picohttpparser.h:79-90 | a call on a buffer that holds one piece |
| ChunkedDecoder.DecodePieces | lab3/code/libparser/picohttpparser.h:79-88 | the loop an application is told to write: over any cutting, payload, verdict and fields are those of the undivided input, and a non-negative result lacks exactly the octets not fed yet |
| ChunkedCodec.RunHead | lab3/code/libparser/picohttpparser.c:598-639 | a chunk-size line of 1 to 16 hex digits in either case and an extension without LF is read as its number; it completes the message when that is 0 and trailers are not consumed |
| ChunkedCodec.ExtensionReads | lab3/code/libparser/picohttpparser.c:603-639 | a size and a semicolon with anything but LF behind it is read as that size, whatever the extension says |
| ChunkedCodec.RunChunks | lab3/code/libparser/picohttpparser.c:598-672 | any list of chunks, with any number of CRs before the LF behind the data, decodes to the joined data |
| ChunkedCodec.RunTrailers | lab3/code/libparser/picohttpparser.c:673-693 | any trailer lines and the blank line behind them complete the message with nothing put out |
| ChunkedCodec.RoundTrip | lab3/code/libparser/picohttpparser.c:591-706 | decoding an encoded body gives its payload and stops exactly where the encoding ends, with and without trailers (section 4.1 of RFC 7230) |
| ChunkedCodec.HeadShape | lab3/code/libparser/picohttpparser.c:598-639 | an input that decodes to the end begins with a chunk-size line |
| ChunkedCodec.DataShape | lab3/code/libparser/picohttpparser.c:641-672 | behind the line of a non-empty chunk come that many octets, CRs and an LF |
| ChunkedCodec.TrailersShape | lab3/code/libparser/picohttpparser.c:673-693 | behind the last chunk come trailer lines and a blank line |
| ChunkedCodec.Parse | lab3/code/libparser/picohttpparser.c:591-706 | whatever decodes to the end begins with an encoded body, which is found |
| ChunkedCodec.AcceptsExactlyBodies | lab3/code/libparser/picohttpparser.c:591-706 | the decoder completes on an input if and only if it begins with an encoded body |
| ChunkedCodec.Completion | lab3/code/libparser/picohttpparser.c:591-706 | every valid decoder, in any state, can still be brought to the end by some input |
| ChunkedCodec.RefusesExactlyHopeless | lab3/code/libparser/picohttpparser.c:591-706 | -1 is returned if and only if nothing sent behind the input could complete it, so at the first octet that makes it hopeless |
| ChunkedCodec.RefusesExactlyNonBodies | lab3/code/libparser/picohttpparser.c:591-706 | a body is refused if and only if no encoded body begins like it; -2 means a beginning of one |
| ChunkedCodec.HexTextLength | lab3/code/libparser/picohttpparser.c:610-613 | a number below 16^k is written in at most k digits, so every `size_t` passes the digit guard |
| ChunkedCodec.SendAndDecode | lab3/code/libparser/picohttpparser.c:591-706 | any non-empty pieces shorter than 2^64, sent as chunks the way RFC 7230 writes them, come back joined, and what follows is left over exactly |
| HttpScans.FirstInRanges | lab3/code/libparser/picohttpparser.c:119-122 | the compare instruction: first of 16 octets that lies in a range, else 16 |
| HttpScans.FindcharFast | lab3/code/libparser/picohttpparser.c:109-139 | the block scan passes only octets in no range; when it says found it is at one |
| HttpScans.EolRanges | lab3/code/libparser/picohttpparser.c:147-151 | the table for line ends holds exactly the octets the slow loop stops at |
| HttpScans.PathRanges | lab3/code/libparser/picohttpparser.c:76-78 | the table for the path holds exactly the octets the slow loop stops at |
| HttpScans.TokenRanges | lab3/code/libparser/picohttpparser.c:261-275 | the table for tokens holds the octets that are no token characters, and the vertical bar and the tilde besides |
| HttpScans.SkipLineFast | lab3/code/libparser/picohttpparser.c:147-183 | either fast form, block scan or loop unrolled eight times, passes only octets the slow loop passes |
| HttpScans.GetTokenToEol | lab3/code/libparser/picohttpparser.c:141-210 | with either fast form the result is that of one octet loop: the first control octet other than HT has to be CRLF or LF |
| HttpScans.ParseToken | lab3/code/libparser/picohttpparser.c:260-296 | the same for tokens, although the block scan stops at the vertical bar and the tilde |
| HttpScans.AdvanceToken | lab3/code/libparser/picohttpparser.c:73-96 | the same for the path |
| HttpSpec.TrimEnd | lab3/code/libparser/picohttpparser.c:366-373 | the trimmed span starts where it started, does not end in SP or HT, and only SP and HT were cut off |
| HttpSpec.Reason | lab3/code/libparser/picohttpparser.c:491-510 | the reason span lies inside its line, with a length that is not negative |
| HttpParser.IsComplete | lab3/code/libparser/picohttpparser.c:212-238 | the search for two adjacent line ends from three octets before the earlier length |
| HttpParser.SkipSpaces | lab3/code/libparser/picohttpparser.c:401-404 | the run of spaces ends before the buffer does, or the result is partial |
| HttpParser.ParseHttpVersion | lab3/code/libparser/picohttpparser.c:299-316 | nothing is looked at before nine octets; then `HTTP/1.` and a digit, or refusal |
| HttpParser.TrimValue | lab3/code/libparser/picohttpparser.c:366-375 | the trimming loop computes the trimmed span |
| HttpParser.ParseFieldName | lab3/code/libparser/picohttpparser.c:336-359 | the name goes into its entry before the line is known to be whole: an empty one, one whose line is cut short, NULL on a continuation; no other entry is touched |
| HttpParser.ParseFieldLine | lab3/code/libparser/picohttpparser.c:336-375 | one field line, name and colon or continuation, value trimmed, into its entry; when it is cut short or refused only what has been stored of the name |
| HttpParser.ParseHeaders | lab3/code/libparser/picohttpparser.c:318-378 | on every return, accepted or not, the table holds the whole field lines read, in order, at most the given number, then perhaps a new name in the entry behind them, and is otherwise untouched |
| HttpParser.ParseTarget | lab3/code/libparser/picohttpparser.c:397-413 | method, spaces, path, spaces; an empty one is refused only when both are there; method and path are stored as soon as each is whole |
| HttpParser.ParseRequestLine | lab3/code/libparser/picohttpparser.c:397-426 | the request line, and what is stored of it on every return |
| HttpParser.ParseRequestHead | lab3/code/libparser/picohttpparser.c:388-426 | the same behind an optional empty line |
| HttpParser.ParseReason | lab3/code/libparser/picohttpparser.c:491-510 | the loop that drops leading spaces stays inside the line and ends at the first octet that is not SP; a line without a leading space is stored and refused |
| HttpParser.ParseStatus | lab3/code/libparser/picohttpparser.c:483-489 | three digits, not looked at before there are four octets; the digits before a bad one are left in the status |
| HttpParser.ParseResponseHead | lab3/code/libparser/picohttpparser.c:469-510 | the status line, and what is stored of it on every return |
| HttpParser.ParseRequestMessage | lab3/code/libparser/picohttpparser.c:432-462 | with or without the block scan: -2 exactly for a partial request, -1 exactly for a refused one, else the consumed length; out-parameters and header table on every return: those of the reference parser when it accepts, the pieces read so far when it does not, nothing when the shortcut ends the call |
| HttpParser.ParseResponseMessage | lab3/code/libparser/picohttpparser.c:516-544 | the same for responses |
| HttpParser.ParseHeaderBlock | lab3/code/libparser/picohttpparser.c:546-568 | the same for header blocks |
| HttpOutputs.HeadersOutAccepted | lab3/code/libparser/picohttpparser.c:318-378 | an accepted header block leaves all its headers in the table and no name behind them |
| HttpOutputs.HeadersOutGrows | lab3/code/libparser/picohttpparser.c:318-378 | what a header block has put into the table before it is all there are the first headers of the accepted block, and a name put behind them is that of the next one |
| HttpOutputs.RequestOutAccepted | lab3/code/libparser/picohttpparser.c:380-462 | an accepted request leaves method, path, version and all headers |
| HttpOutputs.RequestOutGrows | lab3/code/libparser/picohttpparser.c:380-462 | whatever a call on a partial request has stored, method, path, version, headers or a name, is what the complete request says |
| HttpOutputs.ResponseOutAccepted | lab3/code/libparser/picohttpparser.c:464-544 | an accepted response leaves version, status, reason and all headers |
| HttpOutputs.ResponseOutGrows | lab3/code/libparser/picohttpparser.c:464-544 | the same as for requests; the status is still 0 or already right |
| HttpStability.HeadersKept | lab3/code/libparser/picohttpparser.c:318-378 | a header block accepted or refused is so in every longer buffer, with the same spans |
| HttpStability.RequestKept | lab3/code/libparser/picohttpparser.c:380-462 | a request accepted or refused is so in every longer buffer, with the same spans |
| HttpStability.ResponseKept | lab3/code/libparser/picohttpparser.c:464-544 | the same for responses |
| HttpStability.ShorterIsPartial | lab3/code/libparser/picohttpparser.c:432-568 | every prefix shorter than what an accepted message consumes is partial |
| HttpLocality.HeadersCut | lab3/code/libparser/picohttpparser.c:318-378 | an accepted header block is accepted alike in any prefix that holds what it consumes |
| HttpLocality.RequestCut | lab3/code/libparser/picohttpparser.c:380-462 | the verdict on an accepted request depends only on the octets it consumes |
| HttpLocality.ResponseCut | lab3/code/libparser/picohttpparser.c:464-544 | the same for responses |
| HttpShortcut.TwoEolsExactly | lab3/code/libparser/picohttpparser.c:212-238 | the search passes at the first two adjacent line ends, CRLF or LF each, if no CR without LF comes before, refuses at such a CR, and is partial if there is neither |
| HttpShortcut.GuardedExactly | lab3/code/libparser/picohttpparser.c:448-461 | so told an earlier length a call gives the verdict of the full parse if two adjacent line ends are found from three octets before it, -1 at a lone CR, and -2 without entering the parse otherwise |
| HttpResume.RequestLines | lab3/code/libparser/picohttpparser.c:380-430 | what an accepted request consumes is made of lines, every CR before an LF, and ends in a line end right behind another |
| HttpResume.ResponseLines | lab3/code/libparser/picohttpparser.c:464-514 | the same for responses |
| HttpResume.TwoEolsFound | lab3/code/libparser/picohttpparser.c:217-234 | from anywhere before such a blank line the search finds two adjacent line ends |
| HttpResume.TwoEolsNotBad | lab3/code/libparser/picohttpparser.c:217-234 | in a prefix of such octets the search never refuses |
| HttpResume.ShortcutPasses | lab3/code/libparser/picohttpparser.c:212-238 | starting three octets before any earlier length up to the end, the search succeeds |
| HttpResume.RequestShortcut | lab3/code/libparser/picohttpparser.c:448-461 | an accepted request is accepted alike with any earlier length up to what it consumes |
| HttpResume.ResponseShortcut | lab3/code/libparser/picohttpparser.c:530-543 | the same for responses |
| HttpResume.IncrementalRequest | lab3/code/libparser/picohttpparser.c:432-462 | a call on any part of the buffer, told any earlier length: partial below what the request consumes, the full result from there on |
| HttpResume.IncrementalResponse | lab3/code/libparser/picohttpparser.c:516-544 | the same for responses |
| HttpResume.ReceiveRequest | lab3/code/libparser/picohttpparser.c:432-462 | over every sequence of growing buffers, each call told the previous length, an acceptable request is accepted once, whole, and not before it is all there |
| HttpResume.ReceiveResponse | lab3/code/libparser/picohttpparser.c:516-544 | the same for responses |
| HttpResume.HeadersShortcutFails | lab3/code/libparser/picohttpparser.c:546-568 | the property is false of header blocks: a lone CRLF is accepted with earlier length 0 and partial with 1 |
| HttpResume.HeadersShortcut | lab3/code/libparser/picohttpparser.c:546-568 | the exact condition: an accepted header block, whatever follows it in the buffer, is accepted alike with every earlier length up to what it consumes if and only if it does not start with CR or LF, or two adjacent line ends are found from the start of the buffer |
| HttpResume.IncrementalHeaders | lab3/code/libparser/picohttpparser.c:546-568 | a header block that does not start with a line end, called on any part of the buffer with any earlier length: partial below what it consumes, the full result from there on |
| HttpResume.ReceiveHeaders | lab3/code/libparser/picohttpparser.c:546-568 | so over every sequence of growing buffers it is accepted once, whole, and not before it is all there |
| HttpMessages.FieldLineSound | lab3/code/libparser/picohttpparser.c:336-375 | name in front of value inside the line; name a non-empty token, or absent on a continuation; value without control octets but HT and trimmed |
| HttpMessages.FieldsSound | lab3/code/libparser/picohttpparser.c:318-378 | so for all headers of an accepted block, one after the other and apart, no continuation first |
| HttpMessages.TargetSound | lab3/code/libparser/picohttpparser.c:397-413 | method and path apart and in order, the method a token, the path non-empty without SP or control octets |
| HttpMessages.RequestSound | lab3/code/libparser/picohttpparser.c:380-462 | the spans of an accepted request lie in what is consumed, in order and apart, and spell a well-formed request (sections 3.1.1, 3.2 and 3.2.6 of RFC 7230) |
| HttpMessages.ReasonSound | lab3/code/libparser/picohttpparser.c:491-510 | an accepted reason has no leading space and no control octet but HT |
| HttpMessages.ResponseSound | lab3/code/libparser/picohttpparser.c:464-544 | the same for accepted responses |
| HttpGrammar.FieldLineReads | lab3/code/libparser/picohttpparser.c:336-375 | a printed field line, with any blanks behind the colon and behind the value, or none, and either line end, is read as its name and value; a continuation as its value |
| HttpGrammar.LinesRead | lab3/code/libparser/picohttpparser.c:318-378 | behind printed field lines everything is as if the block began there, their fields in front, also when what follows is partial or refused |
| HttpGrammar.BlockReads | lab3/code/libparser/picohttpparser.c:318-378 | printed field lines and a blank line are read as those fields and consumed to the end |
| HttpGrammar.RequestReads | lab3/code/libparser/picohttpparser.c:380-462 | a request printed with any of the liberties, empty line in front, any number of spaces, blanks around values, LF for CRLF, is consumed exactly and its spans spell the parts |
| HttpGrammar.ResponseReads | lab3/code/libparser/picohttpparser.c:464-544 | the same for responses, whose reason may be missing together with its space |
| HttpGrammar.FieldLineShape | lab3/code/libparser/picohttpparser.c:336-375 | a field line that is read begins with a printing of its name and value |
| HttpGrammar.RequestShape | lab3/code/libparser/picohttpparser.c:380-462 | an accepted request begins with a printing of a well-formed one, up to what is consumed |
| HttpGrammar.ResponseShape | lab3/code/libparser/picohttpparser.c:464-544 | the same for responses |
| HttpGrammar.AcceptsExactlyBlocks | lab3/code/libparser/picohttpparser.c:318-378 | a header block is accepted if and only if it begins with printed field lines, at most the given number, and a blank line |
| HttpGrammar.AcceptsExactlyRequests | lab3/code/libparser/picohttpparser.c:380-462 | a request is accepted if and only if the buffer begins with a printing of a well-formed one with at most the given number of fields |
| HttpGrammar.AcceptsExactlyResponses | lab3/code/libparser/picohttpparser.c:464-544 | the same for responses |
| HttpGrammar.RequestRoundTrip | lab3/code/libparser/picohttpparser.c:380-462 | any well-formed request with at most the given number of fields, printed with CRLF and single spaces and parsed, is consumed to its end and comes back part by part |
| HttpGrammar.ReparseRequest | lab3/code/libparser/picohttpparser.c:380-462 | printing what a parse found and parsing that finds the same, so the well-formed requests are exactly the parsable ones |
| HttpGrammar.ResponseRoundTrip | lab3/code/libparser/picohttpparser.c:464-544 | the round trip for responses |
| HttpRefusal.HeadersEnd | lab3/code/libparser/picohttpparser.c:318-378 | every partial header block can be completed |
| HttpRefusal.HeadersRefusedExactlyHopeless | lab3/code/libparser/picohttpparser.c:318-378 | a header block is refused if and only if nothing sent behind it could make it acceptable |
| HttpRefusal.RequestEnds | lab3/code/libparser/picohttpparser.c:380-430 | a partial request can be completed unless a check still waits for octets that cannot help |
| HttpRefusal.RequestHopelessExactly | lab3/code/libparser/picohttpparser.c:380-430 | the exact condition: a request can still become acceptable if and only if it is not refused, no space stands where the method should start, and the octets behind the path, if they are eight or fewer, are how a version begins |
| HttpRefusal.DoomedNotRefused | lab3/code/libparser/picohttpparser.c:397-413 | the input that shows it: a space in front of the method is not refused yet |
| HttpRefusal.ResponseEnds | lab3/code/libparser/picohttpparser.c:464-514 | a partial response can be completed unless a check still waits for octets that cannot help |
| HttpRefusal.ResponseHopelessExactly | lab3/code/libparser/picohttpparser.c:464-514 | the same for responses: the delayed checks are the version before nine octets, the status before four, and the space behind the status before the end of the line |
| HttpRefusal.TooManyHeaders | lab3/code/libparser/picohttpparser.c:332-335 | one field line more than there is room for is refused at its first octet |
| HttpRefusal.ControlInValue | lab3/code/libparser/picohttpparser.c:184-210 | a control octet other than HT in a field value, neither LF nor a CR in front of LF, is refused |
| HttpRefusal.BadName | lab3/code/libparser/picohttpparser.c:340-352 | an octet in a field name that is no token character, and a line without a name, are refused |
| HttpRefusal.BadVersionRefused | lab3/code/libparser/picohttpparser.c:299-316 | a request with nine octets behind the path that do not begin with a version is refused |
| HttpRefusal.BadVersionResponse | lab3/code/libparser/picohttpparser.c:299-316 | a response of nine octets that does not begin with a version is refused |
| HttpRefusal.ControlInPath | lab3/code/libparser/picohttpparser.c:73-96 | a control octet in the path is refused |
| HttpRefusal.RefusedBehindHead | lab3/code/libparser/picohttpparser.c:426-430 | a refused header block makes the request refused, whatever request line is in front |
| HttpRefusal.RefusedBehindStatusLine | lab3/code/libparser/picohttpparser.c:510-514 | the same for responses |
| ListInvariant.SwapChain | lab2/code/2.3/blockrw/list-main-rw.c:147-151 | exchanging the two nodes behind one keeps nodes, head and distinctness and changes what follows those three only |
| ListInvariant.Alone | lab2/code/2.3/blockrw/list-main-rw.c:33-49 | a node locked exclusively is held by one thread |
| ListInvariant.ReadsList | lab2/code/2.3/blockrw/list-main-rw.c:141-146 | in a node it has locked and not just written a thread reads the link of the list |
| ListInvariant.NextInList | lab2/code/2.3/blockrw/list-main-rw.c:66-68 | the node a thread goes on to lock is the one behind its last in the list, at that moment |
| ListInvariant.AcquireNextKeeps | lab2/code/2.3/blockrw/list-main-rw.c:141-144 | locking it keeps the invariant |
| ListInvariant.ReleaseFrontKeeps | lab2/code/2.3/blockrw/list-main-rw.c:158-160 | giving locks back front first keeps the invariant |
| ListInvariant.ReleaseBackKeeps | lab2/code/2.3/mutex/list-main-mutex.c:178-181 | giving them back last first keeps it too |
| ListInvariant.DirtyWriteKeeps | lab2/code/2.3/blockrw/list-main-rw.c:148-149 | the first two writes of a swap leave the list and spoil only links of nodes the swapper has locked |
| ListInvariant.SwapKeeps | lab2/code/2.3/blockrw/list-main-rw.c:150-150 | the third write completes the swap, in the list and in the links |
| ListInvariant.RereadPlace | lab2/code/2.3/blockrw/list-main-rw.c:152-154 | the pointers read back behind the swap are the nodes it holds, in their new order |
| ListInvariant.StepKeeps | lab2/code/2.3/blockrw/list-main-rw.c:135-196 | every step of every thread keeps the invariant, the nodes and the head |
| ListInvariant.RunKeeps | lab2/code/2.3/blockrw/list-main-rw.c:51-199 | the invariant in every state of every interleaving of any number of counters and swappers, with read/write locks or with mutexes |
| ListInvariant.LinksAre | lab2/code/2.3/blockrw/list-main-rw.c:147-151 | following the links from the first node walks the list; a link that differs belongs to a node locked for writing by a swapper between its writes |
| ListInvariant.ComparedPairAdjacent | lab2/code/2.3/blockrw/list-main-rw.c:68-73 | the two nodes a counter compares are neighbours in the list at that moment |
| ListInvariant.PairStays | lab2/code/2.3/blockrw/list-main-rw.c:66-78 | from when a counter has two nodes locked until it gives the first back they are the same two and neighbours in the list, whatever any other thread does |
| ListInvariant.RunSafe | lab2/code/2.3/blockrw/list-main-rw.c:51-199 | in every state of every interleaving the list is an acyclic permutation of the initial one with the same head, compared pairs are neighbours, and every link is the list or that of a node write-locked by a swapper between its writes |
| ListProgress.WantedBehind | lab2/code/2.3/blockrw/list-main-rw.c:135-145 | a thread waits only for a node of the list behind everything it holds |
| ListProgress.FurtherThread | lab2/code/2.3/blockrw/list-main-rw.c:135-145 | whoever holds the node a thread waits for reaches further down the list |
| ListProgress.FreeThread | lab2/code/2.3/mutex/list-main-mutex.c:126-187 | so from any live thread one gets to a live thread nothing obstructs |
| ListProgress.CounterCan | lab2/code/2.3/mutex/list-main-mutex.c:49-83 | an unobstructed counter has a step |
| ListProgress.SwapperCan | lab2/code/2.3/mutex/list-main-mutex.c:126-187 | an unobstructed swapper has a step, also between its writes |
| ListProgress.NoDeadlock | lab2/code/2.3/blockrw/list-main-rw.c:60-92 | in every reachable state with a live thread some thread can step, wanting no lock or one that nobody at all holds |
| ListProgress.GoesOnIff | lab2/code/2.3/blockrw/list-main-rw.c:33-49 | in every reachable state a live thread can step if and only if it wants no lock or nobody who holds the node is in its way; with read/write locks counters are in the way of swappers only |
| ListCounting.CursorMoves | lab2/code/2.3/blockrw/list-main-rw.c:64-92 | a counter moves one place down the list with each comparison and with no other step |
| ListCounting.PairAtCursor | lab2/code/2.3/blockrw/list-main-rw.c:67-73 | the pair it compares is the one its cursor says |
| ListCounting.ListStays | lab2/code/2.3/blockrw/list-main-rw.c:51-95 | counters, however many, leave the list as it is |
| ListCounting.PassComparesAll | lab2/code/2.3/blockrw/list-main-rw.c:61-93 | where nobody swaps, in every interleaving of any number of counters, a pass compares the neighbours one after the other, and at its end has compared each pair exactly once |
| ListCounting.ComparedAreNeighbours | lab2/code/2.3/blockrw/list-main-rw.c:68-73 | beside swappers too, every pair a counter compares is one of neighbours in the list when it does |
| ListCounting.PassCountsAsAlone | lab2/code/2.3/blockrw/list-main-rw.c:61-93 | where nobody swaps a pass counts what a pass alone on the list counts, whatever the other counters do |
| ListCounting.EntersIffTwo | lab2/code/2.3/blockrw/list-main-rw.c:55-58 | a counter goes on to its passes if and only if the list has at least two nodes |
| ListCounting.WholePassComparesAll | lab2/code/2.3/blockrw/list-main-rw.c:60-93 | among counters, from one start of a pass to the next, with nothing assumed of the pointer it had, what a counter compares is each pair of neighbours, once and in order |
| ListCounting.EveryPairCompared | lab2/code/2.3/blockrw/list-main-rw.c:60-92 | from every initial state with a counter, for every pair of neighbours, some run ends with that counter comparing it |
| ListCounting.PassHappens | lab2/code/2.3/blockrw/list-main-rw.c:60-93 | and some run contains a whole pass of it |
| ListSwaps.OnlySwapsChange | lab2/code/2.3/blockrw/list-main-rw.c:145-151 | in any step only a thread that is no counter and holds three nodes changes a link, and the list changes only by exchanging the last two of them |
| ListSwaps.SwapsOnce | lab2/code/2.3/blockrw/list-main-rw.c:141-160 | in every interleaving, while a swapper holds three nodes, from locking the third to giving the first back, it changes the list exactly once, exchanging the second and third |
| ListPaths.CompareRound | lab2/code/2.3/blockrw/list-main-rw.c:64-79 | a counter that stands at a place of the list and is let run compares the pair there and goes on one place down |
| ListPaths.SwapRound | lab2/code/2.3/blockrw/list-main-rw.c:141-161 | a swapper that stands at place p and is let run exchanges the two nodes behind it and goes on from place p + 2 |
| ListPaths.PassRound | lab2/code/2.3/blockrw/list-main-rw.c:163-169 | with two nodes left it exchanges nothing and goes on one place |
| ListPaths.IdleRound | lab2/code/2.3/blockrw/list-main-rw.c:180-191 | when it draws not to swap it locks two nodes, gives them back and stands where it stood |
| ListReach.FullPass | lab2/code/2.3/blockrw/list-main-rw.c:126-197 | a pass let run alone moves the second node to the end |
| ListReach.Overtaking | lab2/code/2.3/blockrw/list-main-rw.c:126-197 | two swappers of which one lets the other go ahead behind its first swap |
| ListReach.ExchangeAt | lab2/code/2.3/blockrw/list-main-rw.c:126-197 | with two swappers, for every place of the list, some run ends with exactly the two nodes behind it exchanged |
| ListReach.ReachedKeeps | lab2/code/2.3/blockrw/list-main-rw.c:126-197 | no run moves the first node or changes which nodes there are |
| ListReach.TwoReachPermutations | lab2/code/2.3/blockrw/list-main-rw.c:126-197 | with two swappers, among any other threads, the lists that runs reach are exactly the permutations that keep the first node |
| ListTour.RunTours | lab2/code/2.3/blockrw/list-main-rw.c:126-197 | in every run with a single swapper, counters around it or not, the list is the initial one after some number of its swaps, each made at the next place down |
| ListTour.OneReachesTour | lab2/code/2.3/blockrw/list-main-rw.c:126-197 | so a single swapper reaches exactly these lists |
| ListTour.WhichExchanges | lab2/code/2.3/blockrw/list-main-rw.c:126-197 | the exact condition: a run ends with just the two nodes behind place i exchanged if and only if i is the first place, the last place possible, or there are two swappers |
| ListTour.MiddleOfFive | lab2/code/2.3/blockrw/list-main-rw.c:126-197 | the property is false of one swapper: on five nodes no run exchanges just the third and the fourth |
| ListStorage.Storage.constructor | lab2/code/2.3/blockrw/list-implement-rw.c:9-18 | an empty storage |
| ListStorage.Storage.AppendNewNode | lab2/code/2.3/blockrw/list-implement-rw.c:29-44 | a new first node with the value cut to 99 characters; the others stay |
| ListStorage.Storage.GenerateValues | lab2/code/2.3/blockrw/list-implement-rw.c:46-59 | as many nodes as the capacity says, values in reverse order of insertion |
| ListStorage.Storage.SwapBehind | lab2/code/2.3/blockrw/list-main-rw.c:145-151 | on the heap the three writes exchange the two nodes behind curr1, and values stay with their nodes |
| ListStorage.Storage.CountPass | lab2/code/2.3/blockrw/list-main-rw.c:61-92 | alone, a pass counts exactly the neighbours that satisfy the comparison |
| ListStorage.BuiltListIsInitial | lab2/code/2.3/blockrw/list-implement-rw.c:46-59 | every list built this way, its nodes numbered from the front, is an initial state of the protocol, link for link |
| QueueFifo.LinkedQueue.constructor | lab2/code/2.2/mutex/queue-mutex-impl.c:36-49 | an empty queue with its counters at 0 |
| QueueFifo.LinkedQueue.Append | lab2/code/2.2/mutex/queue-mutex-impl.c:107-125 | the value goes behind the others; `last` is the new node also when the queue was empty and `last` stale |
| QueueFifo.LinkedQueue.RemoveFirst | lab2/code/2.2/mutex/queue-mutex-impl.c:141-148 | the first value comes out, the rest stay in order |
| QueueFifo.LinkedQueue.QueueAdd | lab2/code/2.2/mutex/queue-mutex-impl.c:95-129 | the add succeeds if and only if fewer items than the capacity are in; then the value goes behind the others, otherwise nothing changes; attempts go up by one, adds by one exactly on success |
| QueueFifo.LinkedQueue.QueueGet | lab2/code/2.2/mutex/queue-mutex-impl.c:131-153 | nothing comes out if and only if the queue is empty, otherwise the first item, and the rest are left in order; attempts go up by one, gets by one exactly on success |
| QueueMutex.StepKeeps | lab2/code/2.2/mutex/queue-mutex-impl.c:95-153 | every step keeps: delivered values followed by contents are the values added, counts match, one thread inside |
| QueueMutex.WriterAdds | lab2/code/2.2/mutex/queue-mutex-impl.c:95-129 | the step that adds: it succeeds if and only if there is room, and then the value of the writer is the next one added and the last one in |
| QueueMutex.ReaderTakes | lab2/code/2.2/mutex/queue-mutex-impl.c:131-153 | the step that gets: nothing if and only if the queue is empty, otherwise the first item, which is the next one delivered |
| QueueMutex.OthersKeepQueue | lab2/code/2.2/mutex/queue-mutex-impl.c:95-153 | no other step touches the queue |
| QueueMutex.NeverStuck | lab2/code/2.2/mutex/queue-mutex-impl.c:95-153 | while a thread is left some thread can step |
| QueueMutex.RunFifo | lab2/code/2.2/mutex/queue-mutex-impl.c:95-153 | so in every interleaving of any number of writers and readers; never more than the capacity |
| QueueMutex.WriterKeeps | lab2/code/2.2/mutex/main-mutex.c:67-87 | a step of the retrying writer: what has been added counts 0, 1, 2, ... |
| QueueMutex.ReaderKeeps | lab2/code/2.2/mutex/main-mutex.c:37-64 | a step of the reader keeps it expecting what comes next |
| QueueMutex.ReaderSeesCounting | lab2/code/2.2/mutex/main-mutex.c:37-87 | with one writer and one reader every value compared is the expected one, no error is ever reported, and what is delivered counts 0, 1, 2, ... |
| QueueSem.OneHolder | lab2/code/2.2/semaphore/queue-sem-impl.c:165-245 | one thread at most is between its wait and its post, and then both semaphores are 0 |
| QueueSem.HolderKeeps | lab2/code/2.2/semaphore/queue-sem-impl.c:171-209 | a step of that thread keeps the token count and the fill level that goes with it |
| QueueSem.WaiterKeeps | lab2/code/2.2/semaphore/queue-sem-impl.c:165-216 | so does a step of any other |
| QueueSem.RunKeeps | lab2/code/2.2/semaphore/queue-sem-impl.c:165-245 | with capacity at least 1, in every interleaving of any number of producers and consumers: the two semaphores and the threads between wait and post add up to 1, the queue holds 0 or 1 items, and the branches that destroy it are not reached |
| QueueSem.RunFifo | lab2/code/2.2/semaphore/queue-sem-impl.c:165-245 | in every interleaving, destroyed or not, what was delivered followed by what is in is what was added |
| QueueSem.ZeroCapacityDestroys | lab2/code/2.2/semaphore/queue-sem-impl.c:177-182 | with capacity 0 the first add destroys the queue: a run that does it |
| QueueSem.SurvivesIffRoom | lab2/code/2.2/semaphore/queue-sem-impl.c:165-245 | no interleaving destroys the queue if and only if its capacity is at least 1 |
| QueueSem.EveryFifthStep | lab2/code/2.2/semaphore/queue-sem-impl.c:165-245 | exactly every fifth step, whoever takes them, is an add or a get |
| QueueSem.RunNeverStuck | lab2/code/2.2/semaphore/queue-sem-impl.c:165-245 | with a producer and a consumer around no interleaving comes to a stop |
| QueueCond.StepKeeps | lab2/code/2.2/condvar/queue-condvar-impl.c:116-200 | every step of any number of producers and consumers keeps: an item is in exactly when the flag forbids an add, one at most, one thread inside, and whoever is about to add or get may |
| QueueCond.SpuriousKeeps | lab2/code/2.2/condvar/queue-condvar-impl.c:120-130 | so does waking up for no reason |
| QueueCond.RunKeeps | lab2/code/2.2/condvar/queue-condvar-impl.c:116-200 | so in every interleaving of any number of them, with capacity and a flag that does not forbid the first add: adds and gets take turns |
| QueueCond.RunFifo | lab2/code/2.2/condvar/queue-condvar-impl.c:116-200 | in every interleaving what was delivered followed by what is in is what was added |
| QueueCond.PendingKept | lab2/code/2.2/condvar/queue-condvar-impl.c:116-200 | one producer, one consumer: a sleeper whose turn it is has its signal pending |
| QueueCond.PairGoes | lab2/code/2.2/condvar/queue-condvar-impl.c:116-200 | one producer, one consumer: they never sleep both, and one can always step without a wake-up for no reason |
| QueueCond.RunNeverStuck | lab2/code/2.2/condvar/queue-condvar-impl.c:116-200 | so in every interleaving of the two no wake-up is lost, and adds less gets is the number of items, 0 or 1 |
| QueueCond.TwoConsumersStick | lab2/code/2.2/condvar/queue-condvar-impl.c:170-197 | a consumer whose signal goes to another consumer: a run to where all threads sleep for good |
| QueueCond.TwoProducersStick | lab2/code/2.2/condvar/queue-condvar-impl.c:120-158 | a producer whose signal goes to another producer: a run to where all threads sleep for good |
| QueueCond.NeverStuckIffPair | lab2/code/2.2/condvar/queue-condvar-impl.c:116-200 | no interleaving comes to a stop if and only if the threads are one producer and one consumer |
| QueueCond.StepsRunOut | lab2/code/2.2/condvar/queue-condvar-impl.c:116-200 | a step is an add or a get, or brings the next one, or a stop, nearer |
| QueueCond.QuietIsShort | lab2/code/2.2/condvar/queue-condvar-impl.c:116-200 | without wake-ups for no reason n threads take at most 2n + 4 steps in a row that neither add nor get |
| QueueCond.DeadForever | lab2/code/2.2/condvar/queue-condvar-impl.c:54-60 | with capacity 0, or the flag left at the forbidding value, nothing is ever added or taken |
| QueueCond.WorksIffWellStarted | lab2/code/2.2/condvar/queue-condvar-impl.c:47-88 | with a producer around something can be added if and only if there is capacity and the flag, which queueInit leaves unset, does not start at the forbidding value |

## Left out

- HttpResume.RequestShortcut: earlier lengths beyond what the request consumes are not covered; the search then starts behind it, or outside the buffer
- ListStorage.Storage.CountPass: a pass alone on the list; beside other counters see `ListCounting.PassCountsAsAlone`, and beside swappers, where the code promises no particular count, `ListCounting.ComparedAreNeighbours`
- Sockets, DNS, connection threads and relaying of the proxy in lab3; all of lab1; lab2/code/2.1, which is documented to race
- The spinlock list and queue: the same protocols over another lock (its `queueGet` does not count attempts)
- Monitor threads, printing, CPU affinity, failing pthread and semaphore calls, failing allocation, freeing of memory, `queueDestroy` and `destroyStorage`
- What happens to a queue once a branch has called `queueDestroy`; a negative `maxCount`, on which the assertion of the first add aborts
- Random strings: node values are given; random choices (to swap or not) are nondeterministic
- The unlocked check at the top of a swapper's pass reads links that may be stale: it may stop the thread or not whenever there is a first node
- Memory is sequentially consistent; a step is one lock operation, one write of a link, or reads of links whose nodes are locked
- The swap and iteration counters of the list, incremented under different locks; overflow of C int and long counters, and the cast of the consumed length to int
- Fairness, and termination of a counter's pass while others keep moving its node back
- The HTTP text is a sequence that does not change during a call, and spans are positions in it rather than pointers
