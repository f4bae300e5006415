# fox-http: a verified model

This project models the HTTP/1.1 server library fox-http in Dafny and proves what
its state machines, its router, its writers and its parsers promise.

* **The connection** (`Machine.dfy`, `ConnectionObject.dfy`). One connection as a state
  machine over the completions of its asynchronous operations: header read, fixed
  or chunked body read through a buffer that may hold more than was asked for and a
  socket that is sometimes read directly, dispatch to the handler, the three ways of
  answering, and the next read. Every operation started is an entry of a list of
  outstanding operations, together with the buffer and the keep-alive flag as they
  were at that moment; every completion the operating system can deliver is an event;
  the bytes of the peer, how far each read overshoots, what each handler does, which
  writes fail and which reads are cancelled are all free. `Connection` is the object
  with the source's fields and methods, proved to do what the functions of `Machine`
  say.
* **The reference** (`Framing.dfy`). The requests in a whole byte stream, read with
  all bytes at hand, each with the bytes behind it. `ReaderProofs.dfy` proves that the
  connection refines it.
* **Whole runs.** `WireProofs.dfy`: answers in turn and once each, headers awaited only
  at request boundaries, termination. `ReuseProofs.dfy`: when the header block of a
  response announces a framing before the connection is used again. `ClientReads.dfy` and
  `ClientInStep.dfy`: when the body on the wire ends where that block says, for one
  response, for every run, and for a client that reads all the bytes sent.
  `Conversation.dfy`: refusals, and with buffered handlers the bytes sent as a function
  of the bytes received. `ConnectionTheorems.dfy`: the results a user relies on.
  `ConnectionEnds.dfy`: when the connection goes on and how it ends, failures included.
  `Counterexamples.dfy`: inputs and handlers, from the first byte on, that show where the
  code falls short of them.
* **Both ends in their own words.** What the functions above compute is also said without
  them, in the bytes on the wire. `HandlerSees.dfy`: what a handler is given of any request,
  in the text of its first line, header lines and body. `ClientSees.dfy`: what a client
  reads of a response, its status line and every header included. `RouterAnswers.dfy`: the
  router's own 404 and 405 as the client reads them. `ConversationRead.dfy`: all the answers
  of a connection with buffered handlers, read one after another. `Examples.dfy`:
  conversations byte for byte.
* **The writers** (`Response.dfy`, `ResponseObject.dfy`, `ChunkRoundTrip.dfy`,
  `ResponseRoundTrip.dfy`, `Sse.dfy`). The response object with its modes, and the
  round trips: chunks against the header parser and the chunk decoder, a serialized
  response against the header parser and the fixed-length reader, event frames against
  the event-stream interpretation of section 9.2.6 of the HTML Standard.
* **The router** (`Routing.dfy`, `RoutingByText.dfy`, `RouterObject.dfy`). Three indexes
  against a search of the flat list of registrations, and that search against the texts of
  the patterns registered.
* **The parsers** (`Text.dfy`, `Numbers.dfy`, `Headers.dfy`, `Request.dfy`,
  `Form.dfy`). Search and trimming, numerals, case-insensitive names, header and
  query lines, percent decoding.
* **The idle check** (`Timer.dfy`).

`Find`, the numeral parsers and the ordered map stand for library functions
(`std::string::find` and the search of `async_read_until`, `std::from_chars` and
`std::stoul`, `std::map` with a comparator) and are modelled exactly: signs, a `0x`
prefix, trailing bytes and out-of-range values included.

Results that differ from what one would expect of the code. Each is an input and the
exact condition, for all inputs:

* the limit test on a chunk adds in 64 bits, so a size that wraps round to within the
  limit is not refused, and overruns the string (`Framing.NextSizeDecides`; for every
  limit, `Counterexamples.WrappingPassesLimit`);
* a length no string can hold makes `reserve` throw out of the callback unless the
  limit stops it: no stream can make a string throw exactly when there is a limit and a
  string can hold it (`Framing.OverlongLengthEscapes`, `Framing.NextSizeDecides`,
  `Counterexamples.LimitKeepsExceptionsIn`);
* whether a connection is reused after a response the handler wrote is decided by the
  entries the response ends up with, not by the header block that was sent: the block
  of a reused connection announces a framing exactly when the framing headers were set
  in time (`ReuseProofs.ImmediateReuseAnnounces`; `Counterexamples.LateFraming`);
* after a stream function framing is not looked at
  (`ReuseProofs.StreamReuseAnnounces`; `Counterexamples.UnframedStream`);
* a stream function of which no write gets a header block out leaves its request
  without an answer, and the next request is read
  (`ReuseProofs.SilentReuse`; `Counterexamples.SilentStream`);
* chunks that a handler writes itself end only if it calls `end_chunks`, once and behind
  them; otherwise the client and the connection are out of step
  (`ClientInStep.HandlerBodyOnTheWire`; `Counterexamples.UnendedChunks`);
* a stream function that calls `end_chunks` itself gets a second terminator behind it
  (`ChunkRoundTrip.StreamEndsWhereBodyEnds`, `ChunkRoundTrip.OwnTerminatorIsLeftOver`);
* chunks of a response to which the handler gave another Transfer-Encoding are not read
  as chunks (`ClientReads.ClientReadsBody`; `Counterexamples.ZippedStream`);
* event data with a carriage return does not arrive as sent (`Sse.SseRoundTrip`,
  `Sse.CarriageReturnIsLost`);
* a 405 can carry an empty `Allow` list, when only method UNKNOWN has a route
  (`Routing.AllowIsExact`, `Routing.AllowCanBeEmpty`);
* an all-literal pattern that is not in canonical form is not reached by its own text
  (`Routing.StaticRouteMatchesItself`, `Routing.TrailingSlashIsNotCanonical`);
* the malformed-header branch of `read()` is never taken
  (`Request.DelimitedBlockParses`).

Where the code and its documentation differ, the model follows the code. `DESIGN.md`
says that mixing modes is caught by assertions; `write_chunk` has no assertion. Its
section on the request (line 243) says that chunked request bodies are not supported;
its list of settled questions (lines 623-627) records them as done, and the connection
decodes them.

## Model

| member | source | states |
|---|---|---|
| ConnectionTheorems.RequestsFollowTheStream | src/connection.cpp:101-345 | for every stream, overshoot, handler and failure, the handler calls and refusals so far are the first ones of the whole-stream reading, in order and once each, and the state is sound |
| ConnectionTheorems.RequestsCompleteTheStream | src/connection.cpp:101-519 | if nothing failed before the end of the stream and handlers behaved, a connection with nothing left to do made exactly the calls of the whole-stream reading |
| ConnectionTheorems.EveryStreamIsServed | src/connection.cpp:101-519 | from every state the machine keeps to, some run of ordinary completions ends the connection with everything the stream still asked for done |
| ConnectionTheorems.SomethingCanHappen | src/connection.cpp:101-519 | no live connection is stuck: its outstanding operation can complete without a failure other than end of stream |
| ConnectionTheorems.RunsAreFinite | src/connection.cpp:216-345 | every run ends: at most four completions a byte and one more |
| ConnectionTheorems.PipelinedConnection | src/connection.cpp:101-345 | well-formed keep-alive requests sent back to back reach the handler one by one with exactly their bodies, each with exactly the bytes behind it still to be read, whatever the reads take |
| ConnectionTheorems.PipelinedBoundaries | src/connection.cpp:101-345 | in every run, whenever the next header is awaited after k of them, exactly the bytes of those k have been taken |
| ConnectionTheorems.PipelinedReplies | src/connection.cpp:448-470 | with buffered handlers the bytes sent are exactly their serialized responses, in order |
| ConnectionTheorems.HeaderIsAwaitedAtBoundary | src/connection.cpp:448-470 | in every run a header is awaited only at the start or exactly behind the last request |
| ConnectionTheorems.ResponsesAreInTurn | src/connection.cpp:448-519 | in every run responses go out in the order of the requests (RFC 7230, section 6.3.2), and every header block prints the entries recorded with it |
| ConnectionTheorems.EveryRefusalIsAnswered | src/connection.cpp:436-470 | in every run whose writes succeed, a refusal ends with one response as its whole answer, which the client reads as "413", "Payload Too Large", its text and "close"; keep-alive is cleared and the socket shut down |
| Conversation.BufferedConversation | src/connection.cpp:349-470 | with buffered handlers, in every run, the bytes sent are the first of one response a request, in order; all of them when nothing failed; and the socket is shut down if the last request ended the connection |
| Conversation.RunConverses | src/connection.cpp:349-470 | at every moment what was sent and what is being written are the responses to what was handed over |
| Conversation.RunRefuses | src/connection.cpp:436-470 | after a refusal, at every moment, the 413 is the one thing written or already sent |
| ConnectionTheorems.OversizedRequestIsRefused | src/connection.cpp:150-154 | behind any served requests, a well-formed request over the limit, in either framing, is refused and not handled; nothing behind it is read; its whole answer is the 413, keep-alive is cleared and the socket shut down |
| ConnectionTheorems.EveryHandledBodyFits | src/connection.cpp:248-251 | in every run, no handler sees a body over the limit |
| ConnectionTheorems.OneHeaderBlockPerRequest | src/http_response.cpp:103-212 | in every run, whatever handlers and stream functions call and whichever writes fail, a request gets at most one header block |
| ConnectionTheorems.EveryRequestIsAnsweredOnce | src/connection.cpp:349-519 | when the calls of every handler and stream function get a response out and the writes of buffered ones succeed, every request has exactly one header block at the end |
| ConnectionTheorems.NoRequestAfterThrow | src/connection.cpp:368-431 | after a handler or stream function throws, no continuation hands over another request |
| ConnectionTheorems.ThrowEndsReading | src/connection.cpp:380-391 | a throw leaves nothing of the stream to be read |
| ConnectionTheorems.BufferedAnswer | src/connection.cpp:393-396 | a buffered response goes out once, alone, serialized, as the answer to its request; then the next read starts exactly when the request asked for it, else the socket shuts down |
| ConnectionTheorems.ThrownAnswer | src/connection.cpp:380-384 | a throw before the flush sends one response, which the client reads as "500", "Internal Server Error" and what was thrown, and ends the connection |
| ConnectionTheorems.ErrorResponseRoundTrip | src/connection.cpp:417-446 | the library's own error responses parse, say close, and are framed exactly |
| ConnectionEnds.ClosingRequestIsLast | src/connection.cpp:356-361 | in every run, a handed-over request without a Connection value, or with the value "close", is the last action |
| ConnectionEnds.AnswerDecidesReuse | src/connection.cpp:448-470 | with buffered handlers, in every run, when the write of the last response succeeds the socket is shut down if that request had no Connection value or "close", and otherwise the next header is read |
| ConnectionEnds.ClosingIsAnnounced | src/connection.cpp:356-362 | with buffered handlers and successful writes, after every run that such a request ends, the last response on the wire reads "Connection: close", unless the handler sets that header, and the socket is shut down |
| ConnectionEnds.ThrowIsAnnounced | src/connection.cpp:380-384 | after every such run whose last handler threw, the last thing on the wire reads as a 500 with what it threw, and the socket is shut down |
| ConversationRead.ConversationIsRead | src/connection.cpp:349-470 | with buffered handlers, in every run of any stream whose writes succeed: at the end the client has read one answer for each request handed over or refused, in order, each with the status, headers and body its handler set, a 500 with what it threw, or the 413, and has no byte left |
| ConversationRead.OneAnswerIsRead | src/connection.cpp:380-396 | the same of one answer, in front of any bytes |
| ConversationRead.OrdinaryMeetsAll | src/connection.cpp:393-406 | a handler that sets status, headers and body and leaves framing to the library meets every condition that the results about runs put on handlers |
| ConnectionEnds.FailedReadEnds | src/connection.cpp:105-113 | in every state a run reaches, a failed read closes the socket, except that a header read does so only for end of stream and abort; nothing else is done |
| ConnectionEnds.MalformedSizeEnds | src/connection.cpp:238-246 | in every such state, a size line without a size closes the socket and nothing else is done |
| ConnectionEnds.FailedWriteEnds | src/connection.cpp:452-458 | in every such state, a failed write ends the connection's work and leaves the socket open |
| ConnectionEnds.AnyOvershoot | src/connection.cpp:101-104 | a read up to a delimiter can complete with any amount taken from the socket that holds the delimiter |
| ConnectionEnds.AnyFailure | src/connection.cpp:101-113 | every read can fail at any point before it is complete, and at the end of the stream exactly when it cannot complete |
| ClientSees.ReplyIsRead | src/http_response.cpp:281-307 | any serialized response, any bytes behind it: the client reads its status, every header it has, and its body if and only if it ends where the block says |
| ClientSees.BufferedReplyIsRead | src/connection.cpp:349-396 | the response of a buffered handler as the client reads it: the status, body and headers last set, under any spelling, and Connection "close" or "keep-alive" as the request asked |
| ClientSees.PlayLeaves | src/http_response.cpp:42-75 | what calls that send no chunks leave: the body last set, and under each spelling of a name the value last set, else what was there |
| ClientSees.ErrorIsRead | src/connection.cpp:417-446 | the client reads the library's own answers: status, phrase, type, "close" and exactly the body, whatever follows |
| ClientSees.RefusalIsRead | src/connection.cpp:436-446 | what a refused client reads is "413", "Payload Too Large" and its text |
| ClientSees.ReplacementIsRead | src/connection.cpp:417-431 | what the client reads after a throw is "500", "Internal Server Error" and a text that ends with what was thrown |
| HandlerSees.PlainIsHandedOver | src/connection.cpp:101-199 | for every first line, printable header lines and following bytes: a request with a length, under any spelling of its name, is handed over first, with its method, path, version, query, headers and body as sent and the rest left, or refused exactly when over the limit; what follows is read exactly when the last Connection line asks for it |
| HandlerSees.ChunkedIsHandedOver | src/connection.cpp:101-345 | the same of a chunked body, the encoding named in any spelling, with any chunks, extensions and trailers |
| HandlerSees.BlockIsRead | src/http_request.cpp:78-133 | a header block with any printable lines, or none, parses to the first line's parts and, under each spelling of a name, the last value |
| Examples.SmallLetterLength | src/http_request.cpp:195-203 | "content-length: 5" and "hello", byte for byte: the handler is given "hello" and what follows is left |
| Examples.OddSpellingChunks | src/connection.cpp:136-160 | "TRANSFER-encoding: gzip, Chunked" and a chunk with an extension, byte for byte: the handler is given the chunk's data and the next request is read |
| Examples.OneRequestConnection | src/connection.cpp:349-470 | a whole connection byte for byte: "GET /a?q=%2F+x" with "Connection: close" and a handler that says 404; what the handler is given, every byte of the response, and the socket shut down |
| Examples.TwoChunks | src/http_response.cpp:161-212 | a handler that writes two chunks and ends them, byte for byte: header block, sizes, data and terminator; it meets the conditions of the results about runs |
| ReuseProofs.ImmediateReuseAnnounces | src/connection.cpp:398-406 | after a response written by the handler the next request is read exactly when it was asked for and a framing header was set at any time; the block on the wire announces a framing whenever that happens if and only if the framing headers were set in time |
| ReuseProofs.StreamReuseAnnounces | src/connection.cpp:472-519 | after a stream job the next request is read exactly when it was asked for and nothing threw; the block on the wire announces a framing whenever that happens if and only if there was one at the first successful write |
| ReuseProofs.SilentReuse | src/connection.cpp:478-507 | a stream job leaves its request unanswered and the connection in use exactly when it does not throw and no call of it gets a header block out |
| ReuseProofs.EveryReusedResponseAnnounces | src/connection.cpp:349-519 | in every run whose handlers and stream functions see to it, each response after which the connection was used again has a header block on the wire that announces a framing |
| ClientInStep.HandlerBodyOnTheWire | src/connection.cpp:398-406 | a response written by the handler, in chunks or raw: what is sent, when the next request is read, and that a client reading by the sent block gets exactly the body and leaves what follows if and only if the length is right, or the encoding says chunked and the handler ended the chunks once and last |
| ClientInStep.StreamBodyOnTheWire | src/connection.cpp:475-508 | the same of a stream job, where the function must not end the chunks itself |
| ClientInStep.EveryReusedResponseIsWhole | src/connection.cpp:349-519 | in every run whose responses meet those conditions, each response after which the connection was used again is read by the client as one response, whatever follows it |
| ClientInStep.ClientIsInStep | src/connection.cpp:349-519 | in those runs, whenever the next header is awaited, a client that reads all the bytes it was sent has read exactly one response for each request and has none left |
| ClientInStep.CompleteInStep | src/connection.cpp:349-519 | every completion keeps the responses whole |
| ClientInStep.WireIsAnswers | src/connection.cpp:448-519 | the bytes on the wire are the answers one behind the other |
| ClientReads.ClientReadsBody | src/http_response.cpp:115-212 | a body written in chunks or raw, printable headers, any bytes behind it: the block parses, and read as it says gives exactly the body and leaves what follows if and only if the body ends where the block says |
| ClientReads.ClientReadsReply | src/http_response.cpp:281-307 | the same of a serialized response, a Content-Length of the handler included |
| ClientReads.OpenDecodes | src/http_response.cpp:161-212 | chunk calls without an end added to them decode to their data if and only if they end themselves once, with nothing sent behind |
| ClientReads.ChunksShrink | src/connection.cpp:216-345 | a decoded body is shorter than the bytes it took |
| ClientReads.RawEncode | src/http_response.cpp:115-159 | raw writes send the header block once, in front, and then their data |
| ReuseProofs.JobShows | src/connection.cpp:478-481 | what a stream job sends announces a framing exactly under that condition on its calls |
| WireProofs.HandlerLeaves | src/http_response.cpp:72-212 | what a handler leaves behind, mode and header block, read off its calls |
| WireProofs.JobHeads | src/connection.cpp:478-502 | a stream job sends a header block exactly when none was sent and one of its calls, its end or its 500 gets one out |
| WireProofs.ReadLands | src/connection.cpp:101-345 | every callback of a successful read takes what it asked for and then hands over, refuses, throws, reads on or ends, and does nothing else |
| Counterexamples.LateFraming | src/connection.cpp:398-406 | a handler that sets Content-Length after its first write: the whole wire of a run that reuses the connection without announcing a framing |
| Counterexamples.UnframedStream | src/connection.cpp:472-519 | a stream function that just writes: the same |
| Counterexamples.SilentStream | src/connection.cpp:478-507 | a stream function that does nothing: a run that goes on with an empty wire |
| Counterexamples.UnendedChunks | src/connection.cpp:398-406 | a handler that writes a chunk and does not end it: the whole wire of a run that reuses the connection, where no following bytes make the client read that body |
| Counterexamples.ZippedStream | src/http_response.cpp:166-171 | a handler that announces gzip and streams a chunk: the whole wire of a run, where no following bytes make the client read that body |
| Counterexamples.BareHeadIsUnframed | src/http_response.cpp:85-101 | a client that parses the block of those runs finds neither a length nor an encoding |
| WireProofs.CompleteTame | src/connection.cpp:101-519 | each completion spends bytes or rank, only appends to what was done, keeps answers in turn and at most one header block a request (exactly one when the calls get it out), and leaves the place in the stream at a request boundary between requests |
| WireProofs.RunLives | src/connection.cpp:101-519 | over any run the invariants hold, calls are only added, and the number of completions is bounded by what they spend |
| WireProofs.JobTame | src/connection.cpp:475-502 | a stream job adds a header block only if none was sent, also when it throws |
| ReaderProofs.StepKeeps | src/connection.cpp:101-519 | every completion of every operation keeps byte conservation, one outstanding operation, empty buffer at direct reads, the limit and the idle flag, and stays on the whole-stream reading |
| ReaderProofs.RunKeeps | src/connection.cpp:101-519 | the same over whole runs |
| ReaderProofs.HeaderKeeps | src/connection.cpp:103-131 | the header callback reads the request the whole stream has next |
| ReaderProofs.BodyKeeps | src/connection.cpp:136-160 | choosing the framing agrees with the whole-stream reading, the refusal included |
| ReaderProofs.FixedKeeps | src/connection.cpp:162-199 | a fixed body taken partly from the buffer and partly from the socket is the next n bytes of the stream |
| ReaderProofs.SizeLineKeeps | src/connection.cpp:220-258 | a size line leads where the whole-stream reading goes, errors included |
| ReaderProofs.ChunkDataKeeps | src/connection.cpp:261-295 | chunk data split between buffer and socket is the next n bytes, and the accumulator stays within the limit |
| ReaderProofs.ChunkEndKeeps | src/connection.cpp:297-321 | the two bytes after a chunk are skipped exactly, wherever they are |
| ReaderProofs.TrailerKeeps | src/connection.cpp:323-345 | trailer lines are dropped up to the empty line, and then the body is handed over |
| ReaderProofs.DispatchKeeps | src/connection.cpp:349-415 | for any handler, the call happens once and the rest of the stream is read only if the request keeps the connection |
| ReaderProofs.AfterDataSplits | src/connection.cpp:265-285 | taking a chunk's data in two pieces is taking it at once |
| ConnectionObject.Connection.constructor | src/connection.cpp:47-77 | a new connection is in the start state with its first read outstanding |
| ConnectionObject.Connection.Serve | src/connection.cpp:101-519 | the object through any completions: every byte accounted for, at most one operation outstanding, handler calls the first of the whole-stream reading |
| ConnectionObject.Connection.Turn | src/connection.cpp:101-519 | one completion changes the object as the machine's step |
| ConnectionObject.Connection.Read | src/connection.cpp:101-103 | starts a header read and changes nothing else |
| ConnectionObject.Connection.OnHeader | src/connection.cpp:104-130 | the header callback's new state |
| ConnectionObject.Connection.ReadBody | src/connection.cpp:136-160 | the new state after choosing the framing |
| ConnectionObject.Connection.ReadFixedBody | src/connection.cpp:162-188 | the new state of the fixed-length reader |
| ConnectionObject.Connection.OnFixedRest | src/connection.cpp:189-198 | the new state when the missing bytes have arrived |
| ConnectionObject.Connection.ReadChunkedBody | src/connection.cpp:216-220 | starts a size-line read |
| ConnectionObject.Connection.OnSizeLine | src/connection.cpp:220-258 | the new state after a size line |
| ConnectionObject.Connection.ParseSize | src/connection.cpp:233-246 | the loops that strip a size line give the size the decoder uses, or none |
| ConnectionObject.Connection.AfterSizeLine | src/connection.cpp:248-257 | the new state once the size is known |
| ConnectionObject.Connection.ReadChunkData | src/connection.cpp:261-285 | the new state of the chunk-data reader |
| ConnectionObject.Connection.ReadChunkTrailingCrlf | src/connection.cpp:297-311 | the new state of the reader of the two closing bytes |
| ConnectionObject.Connection.ReadChunkTrailers | src/connection.cpp:323-328 | starts a trailer-line read |
| ConnectionObject.Connection.OnTrailer | src/connection.cpp:329-344 | the new state after a trailer line |
| ConnectionObject.Connection.OnReadFailed | src/connection.cpp:105-113 | the new state after a failed read |
| ConnectionObject.Connection.Dispatch | src/connection.cpp:349-378 | the new state after the handler ran on a response object |
| ConnectionObject.Connection.Answer | src/connection.cpp:380-415 | the new state for each mode and for a throw |
| ConnectionObject.Connection.ReplaceWith500 | src/connection.cpp:417-431 | builds the 500 and clears keep-alive, changing nothing else |
| ConnectionObject.Connection.RejectPayloadTooLarge | src/connection.cpp:436-446 | the new state after a refusal |
| ConnectionObject.Connection.WriteBuffered | src/connection.cpp:448-451 | starts one write of the serialized response |
| ConnectionObject.Connection.OnWritten | src/connection.cpp:452-469 | the new state when the write ended |
| ConnectionObject.Connection.StreamJob | src/connection.cpp:472-508 | the new state and the wire after the pool job |
| ConnectionObject.Connection.RecoverJob | src/connection.cpp:490-502 | what a throwing stream function still sends |
| ConnectionObject.Connection.FinishRequest | src/connection.cpp:510-519 | the new state when a request is finished |
| Framing.ChunkedBodyExact | src/connection.cpp:216-345 | for every chunk list, extensions, trailers and following bytes: exactly the body and what follows if and only if it is within the limit, otherwise refused |
| Framing.OneMessage | src/connection.cpp:101-345 | a well-formed request in front of any bytes is read exactly, or refused exactly when over the limit |
| Framing.PipelinedRequests | src/connection.cpp:101-345 | requests sent back to back are read in order and what follows is read from its start |
| Framing.HandledBodiesFit | src/connection.cpp:150-154 | whatever the stream, only bodies within the limit are handed over |
| Framing.NextSizeDecides | src/connection.cpp:248-281 | behind chunks, a size line over the limit is refused if and only if the 64-bit sum does not wrap round to within the limit; one let through overruns the string if and only if the sum wraps, throws if and only if no string can hold it, and is otherwise read |
| Framing.OverlongLengthEscapes | src/connection.cpp:150-166 | a header block announcing a length makes reserve() throw if and only if no string can hold it and the limit lets it through, whatever follows |
| Framing.NothingEscapes | src/connection.cpp:248-281 | with a limit that a string can hold, no stream makes a string throw, chunks included |
| Counterexamples.WrappingPassesLimit | src/connection.cpp:248-281 | a request with an announced body of 2^64 bytes that no run refuses, whatever the limit |
| Counterexamples.LimitKeepsExceptionsIn | src/connection.cpp:150-166 | no stream can make a string throw if and only if there is a limit and a string can hold it |
| Framing.ChunksStep | src/connection.cpp:216-321 | chunks in front of any bytes are collected if they fit and refused if not |
| Framing.TrailersAreSkipped | src/connection.cpp:323-345 | any trailer lines are dropped and the bytes behind them kept |
| Framing.OneChunk | src/connection.cpp:216-321 | one chunk in front of any bytes is taken if it fits and refused if not |
| Framing.KeepsAliveUnlessAsked | src/connection.cpp:356-361 | a request keeps the connection unless its Connection value is "" or "close" |
| Framing.ClosingIsLast | src/connection.cpp:356-361 | in the reading of any stream, such a request is the last |
| Framing.ChunkedByCode | src/connection.cpp:137-143 | a body is chunked if and only if the Transfer-Encoding has that word in it, letter by letter in either case, by code |
| Framing.ChunkSizeReads | src/connection.cpp:233-246 | a size line is the value of its digits in base 16, whatever blanks are around them and whatever extension follows; none past 2^64 |
| Framing.ChunkSizeRejects | src/connection.cpp:238-246 | a line that begins with neither a digit nor a sign has no size |
| ChunkRoundTrip.ChunkedResponseRoundTrip | src/http_response.cpp:161-212 | chunks written and ended once decode to their concatenation, whatever follows, empty chunks skipped |
| ChunkRoundTrip.StreamEndsWhereBodyEnds | src/connection.cpp:479-481 | with the job's own end_chunks added, the response ends where its body does if and only if the function ended no chunks itself |
| ChunkRoundTrip.OwnTerminatorIsLeftOver | src/http_response.cpp:206-212 | one chunk and an end_chunks of the function's own leave a terminator over |
| ChunkRoundTrip.SizeLineRoundTrip | src/http_response.cpp:175-177 | the printed size of any 64-bit chunk fits its buffer and is read back by the decoder |
| ChunkRoundTrip.EncodedDecodes | src/connection.cpp:216-345 | any mix of chunk and end calls decodes up to the first terminator |
| ChunkRoundTrip.ChunkCallsEncode | src/http_response.cpp:161-204 | the header block, with a Transfer-Encoding among its entries, goes out in front of the first chunk and only there |
| ChunkRoundTrip.AnnouncedParses | src/http_response.cpp:166-171 | that block parses, and is read as announcing chunks exactly when the response had no Transfer-Encoding or one that says chunked |
| ResponseRoundTrip.BufferedResponseRoundTrip | src/http_response.cpp:281-307 | a serialized response splits at its first CRLFCRLF into a block that parses, under any spelling, to its entries and length, and its body |
| ResponseRoundTrip.BlockParses | src/http_response.cpp:85-101 | a printed header block ends where it is meant to and parses to its entries |
| ResponseRoundTrip.FramingIsRead | src/http_response.cpp:85-101 | a client that parses the block finds a length or an encoding in it exactly when its entries hold one |
| ResponseRoundTrip.HeadParses | src/http_request.cpp:78-92 | header lines behind any clean first line parse to their entries |
| ResponseRoundTrip.BlockEnds | src/http_response.cpp:85-101 | clean lines hold no blank line before the end of the block |
| ResponseRoundTrip.HeadersParse | src/http_request.cpp:118-133 | the header loop over printed lines assigns their entries in order |
| ResponseRoundTrip.HeaderLineParses | src/http_request.cpp:126-131 | a printed header line parses back to its name and value |
| Response.PlaySendsOneHead | src/http_response.cpp:103-212 | any sequence of calls with any failing writes sends the header block once, in front, with the first successful write; a response that sent or announced chunks is never Buffered |
| Response.PlayAnnounces | src/http_response.cpp:103-212 | read off the calls: the header block goes out with the first successful write, and announces a framing exactly when one of the calls up to that write gave the response one; what is set later is in the entries only |
| Response.PlayMode | src/http_response.cpp:72-174 | the mode any calls lead to, in any order: Stream if one of them streams, else Immediate if one writes, else Buffered |
| Response.PlayPrints | src/http_response.cpp:103-212 | every header block that goes out prints the entries recorded with it |
| Response.EndSendsOneHead | src/http_response.cpp:206-212 | end_chunks sends the header block only if nothing else did |
| Response.ReasonPhrase | src/http_response.cpp:242-279 | every reason phrase stays on the status line |
| Response.PhrasesBelow400 | src/http_response.cpp:242-279 | each phrase of the codes below 400, as text |
| Response.PhrasesBelow410 | src/http_response.cpp:242-279 | each phrase from 400 to 409 |
| Response.PhrasesBelow500 | src/http_response.cpp:242-279 | each phrase from 410 to 499 |
| Response.PhrasesFrom500 | src/http_response.cpp:242-279 | each phrase from 500 |
| Response.OtherPhrases | src/http_response.cpp:242-279 | every other code has the empty phrase |
| Response.BlockSaysStatus | src/http_response.cpp:85-101 | for every status from 0, whatever begins with a printed block begins with "HTTP/1.1 ", digits whose value is the status, a blank, the phrase and a line end |
| Response.ResponseSaysStatus | src/http_response.cpp:281-307 | so do the header block and the serialized form of every response |
| Response.HeadSaysStatus | src/http_response.cpp:103-212 | the header block that goes out with the first successful write says the status last set before it |
| ResponseObject.HttpResponse.InsertHeader | src/http_response.cpp:42-50 | overwrites the entry with that name in any case, or appends |
| ResponseObject.HttpResponse.FindCi | src/http_response.cpp:30-40 | the first entry whose name differs at most in case |
| ResponseObject.HttpResponse.BuildHeaderBlock | src/http_response.cpp:85-101 | the printed block of the current status and entries |
| ResponseObject.HttpResponse.Serialize | src/http_response.cpp:281-307 | the printed response, with a length added when there is none |
| ResponseObject.HttpResponse.FlushHeaders | src/http_response.cpp:103-113 | new state and wire of a flush |
| ResponseObject.HttpResponse.Write | src/http_response.cpp:115-137 | new state and wire of a write, header block in front of the first |
| ResponseObject.HttpResponse.Writev | src/http_response.cpp:139-159 | new state and wire of a gathered write |
| ResponseObject.HttpResponse.WriteChunk | src/http_response.cpp:161-204 | new state and wire of a chunk |
| ResponseObject.HttpResponse.EndChunks | src/http_response.cpp:206-212 | new state and wire of the terminator |
| ResponseObject.HttpResponse.WriteSseEvent | src/http_response.cpp:214-240 | writes exactly the event's frame |
| ResponseObject.HttpResponse.Play | src/http_response.cpp:72-240 | a handler's calls leave the object and the wire as the calls one by one do |
| Sse.SseRoundTrip | src/http_response.cpp:214-240 | the client gets one event with that name and that data less one final newline, if and only if the data has no carriage return |
| Sse.CarriageReturnIsLost | src/http_response.cpp:224-237 | data that does not arrive as sent |
| Sse.DataInterprets | src/http_response.cpp:224-237 | the data lines append exactly the data to the receiver's buffer |
| Sse.FrameByLine | src/http_response.cpp:217-238 | a frame line by line, byte for byte: the event's name if it has one, each line of the data behind "data: ", an empty line |
| Sse.BuildFrame | src/http_response.cpp:217-238 | the loop that builds a frame gives one data line for each line of the data |
| Headers.HeaderMapsAgree | src/http_response.cpp:30-68 | after any insertions, list and ordered map answer every spelling of every name with the last value written, and the list holds no two names differing only in case |
| Headers.CiTrichotomy | src/http_request.cpp:44-48 | two names are equal ignoring case exactly when neither is before the other |
| Headers.CiLessTransitive | src/http_request.cpp:44-48 | the order of names is transitive |
| Headers.CiLessRespectsCase | src/http_request.cpp:44-48 | the order cannot tell spellings of a name apart |
| Headers.CiEqualIsSpelling | src/http_response.cpp:15-24 | two names are equal exactly when they have one length and at each place the same byte, or a capital letter and the small one 32 above it |
| Text.CaseCodes | src/http_request.cpp:44-48 | folding makes two bytes equal exactly when they are the same or the two cases of one letter, by code, and folds to the case it should |
| Headers.InsertKeepsPlaces | src/http_response.cpp:42-50 | an insertion under any spelling of a name there is keeps every place and the first spelling; any other goes to the end |
| Headers.GetAfterInsert | src/http_response.cpp:42-68 | after an insertion a lookup sees the new value under that name and the old answers elsewhere |
| Headers.LookupAfterAssign | src/http_request.cpp:131-160 | the same for the ordered map, which searches only where its order allows |
| Headers.AssignKeepsOrder | src/http_request.cpp:131-131 | assignment keeps the map ordered |
| Request.DelimitedBlockParses | src/connection.cpp:118-127 | a block read up to its blank line always parses |
| Request.FoldHeadersKeepsOrder | src/http_request.cpp:118-133 | parsing any header lines leaves an ordered map |
| Request.QueryRoundTrip | src/http_request.cpp:135-149 | a query string of encoded fields parses to those fields, the last of a key winning |
| Request.RequestLineRoundTrip | src/http_request.cpp:78-116 | for every method text, path, query and version without the separators in them: the parsed block has the method by its name, that path, that version less a carriage return, and exactly the fields the query encodes |
| Request.RequestLineParses | src/http_request.cpp:94-116 | the same of the line alone, on any request, with nothing else changed |
| Request.ShortLineIsIgnored | src/http_request.cpp:94-98 | a line without two blanks changes nothing |
| Request.VerbsByName | src/http_request.cpp:63-102 | each method is named by its text in any case, and any other text names the unknown one |
| Request.HeaderLineReads | src/http_request.cpp:126-131 | a line assigns what is behind its first colon to what is before it, both without the blanks around them; a line without a colon or a name does nothing |
| Request.BareQueryToken | src/http_request.cpp:143-144 | a query token without '=' is skipped |
| Request.TrimSpaces | src/http_request.cpp:13-17 | the two loops trim both ends |
| Request.HttpRequest.ParseHeader | src/http_request.cpp:78-92 | the parsed request, or no change and false |
| Request.HttpRequest.ParseRequestLine | src/http_request.cpp:94-116 | the request after its first line |
| Request.HttpRequest.ParseHeaders | src/http_request.cpp:118-133 | the loop assigns each header line in order |
| Request.HttpRequest.ParseQueryString | src/http_request.cpp:135-149 | the loop adds each query token in order |
| Text.TrimCutsSpaces | src/http_request.cpp:13-17 | trimming removes the longest run of spaces at each end and nothing else |
| Numbers.DecimalRoundTrip | src/http_request.cpp:195-203 | a printed 64-bit length is read back exactly |
| Numbers.HexRoundTrip | src/connection.cpp:238-240 | a printed 64-bit chunk size is read back exactly |
| Numbers.HexNumeralLength | src/http_response.cpp:175-177 | a size below 16^k prints as at most k digits |
| Numbers.DigitTable | src/connection.cpp:238-240 | the digits of both bases by position, letters in either case |
| Numbers.DigitCounts | src/connection.cpp:238-240 | the first digit of a numeral counts by the power of its place |
| Numbers.FromCharsReads | src/http_request.cpp:195-203 | a length is the value of the digits in front, whatever follows; without digits, or past 2^64, there is none |
| Numbers.StoulReads | src/connection.cpp:238-246 | a size may have blanks, a sign and "0x" before its digits; a minus counts down from 2^64 |
| Form.DecodeInvertsEncoding | src/http_util.cpp:9-30 | decoding inverts every percent-encoding of every byte string |
| Form.DecodeConcat | src/http_util.cpp:9-30 | decoding splits at any cut no escape can straddle |
| Form.EscapeDecodes | src/http_util.cpp:14-19 | a percent sign and two digits, in either case, stand for the byte with that code |
| Form.SignedEscape | src/http_util.cpp:15-19 | a minus sign and a digit are read as a negative number, whose low byte is taken |
| Form.BarePercentDecodes | src/http_util.cpp:20-22 | a percent sign that begins no escape stands for itself |
| Form.PlainDecodes | src/http_util.cpp:23-27 | a plus stands for a blank, any other byte for itself |
| Form.DecodeUrl | src/http_util.cpp:9-30 | the loop decodes unit by unit from the front |
| Form.FormRoundTrip | src/http_util.cpp:32-49 | parsing any encoding of a list of fields adds exactly those fields, the last of a key winning |
| Form.FieldMapExact | src/http_util.cpp:32-49 | distinct keys come back as exactly the map that holds them |
| Form.ParseFormUrlencoded | src/http_util.cpp:32-49 | the loop adds each token of the body in order |
| Routing.AllowIsExact | src/http_router.cpp:194-232 | a 405's list holds in enumeration order and once each exactly the methods with a route for the path, never the one asked for, and is empty exactly when only UNKNOWN has one |
| Routing.AllowCanBeEmpty | src/http_router.cpp:194-232 | with only an UNKNOWN route for the path, a GET gets a 405 with an empty list and nothing else |
| Routing.HandledIffRouted | src/http_router.cpp:242-292 | a request reaches a handler exactly when a route of its method matches, and gets a 405 exactly when only another method's does |
| Routing.CapturesRebuildPath | src/http_router.cpp:126-165 | with distinct names, putting the captures back into the pattern gives the path's segments |
| Routing.SplitInvertsJoin | src/http_router.cpp:62-73 | splitting inverts joining non-empty, slash-free parts |
| Routing.SplitIsSlashFree | src/http_router.cpp:62-73 | every part of a split path is non-empty and slash-free |
| Routing.PatternIsClassifiedPath | src/http_router.cpp:36-60 | a parsed pattern is the split path with each part classified |
| Routing.BucketSuffices | src/http_router.cpp:254-265 | the first match in the bucket of the path's length is the first match of all parameter routes |
| Routing.FirstIsBest | src/http_router.cpp:267-275 | the first match in the sorted list is one that no matching route is ahead of |
| Routing.RoutesAreClassified | src/http_router.cpp:75-124 | each index holds routes of its own kind only |
| Routing.StaticKeysAreCanonical | src/http_router.cpp:94-104 | static routes answer only to canonical forms of registered all-literal patterns |
| Routing.StaticRouteMatchesItself | src/http_router.cpp:94-104 | behind any registrations, an all-literal one is reached by its own text exactly when that is canonical; otherwise requests for that text are answered as if it had not been made |
| Routing.TrailingSlashIsNotCanonical | src/http_router.cpp:94-104 | a pattern that is not |
| RoutingByText.HandleByText | src/http_router.cpp:242-292 | the outcome of any request in the texts registered: the last all-literal pattern whose text is the path; else the first one with names that fits part by part; else one of those that take the rest such that none that is to be tried before it fits; else a 405 if another method's pattern fits; else a 404 |
| RoutingByText.OwnTextIsReached | src/http_router.cpp:94-104 | whatever was registered before, a literal path "/a/b" registered last is reached by exactly its own text |
| RoutingByText.KeyByText | src/http_router.cpp:94-103 | the key of an all-literal pattern is its parts in order, each behind a slash, or "/" for none |
| RoutingByText.Classified | src/http_router.cpp:46-57 | a part names one segment if it begins with ':', the rest if it begins with '*', the name being what follows; else it is literal |
| RoutingByText.SplitKeepsBytes | src/http_router.cpp:62-73 | splitting a path loses nothing but slashes and keeps the order |
| RoutingByText.MatchesByText | src/http_router.cpp:126-152 | a pattern fits a path part by part; one that takes the rest fits any number of further parts, none included |
| RoutingByText.BindsByText | src/http_router.cpp:153-165 | each name gets the part it stands for, or the rest joined by slashes, the last of a name winning; nothing else changes |
| RoutingByText.AheadByText | src/http_router.cpp:13-20 | of two patterns that take the rest, the one with more literal parts in front comes first, and of two with as many the longer one |
| RoutingByText.RoutedByText | src/http_router.cpp:167-192 | a method has a route for a path exactly when one of its texts fits it |
| RoutingByText.AllowByText | src/http_router.cpp:194-232 | the text of Allow: the names of exactly those methods, in order, with a comma and a blank between them |
| RouterAnswers.NotAllowedIsRead | src/http_router.cpp:277-288 | whatever was registered, the client of the built-in 405 reads that status, an Allow header that lists exactly the methods with a route, and the text, whole whatever follows |
| RouterAnswers.NotFoundIsRead | src/http_router.cpp:24-28 | the client of the built-in 404 reads that status, its type and its text |
| RouterObject.HttpRouter.Add | src/http_router.cpp:75-124 | the indexes represent the list with the new registration appended; a misplaced catch-all changes none |
| RouterObject.HttpRouter.SortRoutes | src/http_router.cpp:114-120 | the same routes, none ahead of an earlier one |
| RouterObject.HttpRouter.AddCatchall | src/http_router.cpp:110-120 | the catch-all index represents the longer list |
| RouterObject.HttpRouter.AddParam | src/http_router.cpp:121-123 | the index by length represents the longer list |
| RouterObject.HttpRouter.AddStatic | src/http_router.cpp:94-104 | the exact index represents the longer list |
| RouterObject.HttpRouter.ParsePattern | src/http_router.cpp:36-60 | the loop gives the classified parts |
| RouterObject.HttpRouter.SplitPath | src/http_router.cpp:62-73 | the loop gives the non-empty parts |
| RouterObject.HttpRouter.MatchDynamic | src/http_router.cpp:126-165 | says whether the route matches; binds every capture if so, and leaves the parameters alone if not |
| RouterObject.HttpRouter.PathMatchesAnyMethod | src/http_router.cpp:167-192 | true exactly when some method has a route for the path |
| RouterObject.HttpRouter.AllowedMethodsFor | src/http_router.cpp:194-232 | the list of the methods that have a route, in enumeration order |
| RouterObject.HttpRouter.Handle | src/http_router.cpp:242-292 | the handler, captures or refusal that the flat search allows: last static, first parameter route, best catch-all, else 405 or 404 |
| RouterObject.HttpRouter.FirstMatching | src/http_router.cpp:258-274 | the first matching route with its captures, or none and the parameters untouched |
| Timer.TimerManager.CheckIdleConnections | src/timer_manager.cpp:38-56 | removes exactly the expired entries; cancels exactly the quiet connections that are not processing, each of which waits for a header or for nothing; and leaves every other connection as it is |
| Timer.IdleCheckIsACompletion | src/connection.cpp:79-113 | after any run, cancelling an idle connection leaves what a longer run leaves; the connection is closed and nothing that was done, sent or received has changed |
| ConnectionObject.Connection.Cancel | src/connection.cpp:79-84 | the new state when the wait for a header is cancelled |
| Timer.IdleMeansAwaitingHeader | src/connection.cpp:103-116 | in every run a connection counts as not processing exactly while it waits for a header |

## Left out

- ConnectionObject.Connection.AfterSizeLine: where the accumulated size passes 2^64 it records, as `Machine.AfterSizeLine` does, that the string is overrun, and stops there: reading past a string has no meaning on sequences. `Framing.NextSizeDecides` says exactly when that happens.
- Framing.OneMessage: is about bodies a string can hold (`MAX_STRING`); for longer ones `Framing.OverlongLengthEscapes` says what happens.
- RouterObject.HttpRouter.SortRoutes: promises some sorted arrangement, because `std::sort` is not stable; which of two equally ranked catch-all routes comes first is left open.
- ResponseRoundTrip.BufferedResponseRoundTrip: is about responses whose handler leaves Content-Length and Transfer-Encoding to the library; `ClientReads.ClientReadsReply` has the condition for the others. Header fields a client cannot read back (untrimmed, with line breaks, a colon in the name) are sent as they are.
- ChunkRoundTrip.StreamEndsWhereBodyEnds: is about stream functions that only write and end chunks, with writes that succeed; `ClientReads.ClientReadsBody` covers those that write raw bytes.
- ReuseProofs.EveryReusedResponseAnnounces: is about the header block; `ClientInStep.EveryReusedResponseIsWhole` is about the body behind it.
- ClientInStep.HandlerBodyOnTheWire: is about responses that set their headers first and then write the body either in chunks or raw, with writes that succeed; one that mixes the two, or sets headers between its writes, is not covered.
- ConnectionTheorems.OneHeaderBlockPerRequest: counts writes that succeeded; what part of a failed write reached the peer is not modelled, and the code sends the header block again with the next write after one that failed.
- Sockets, Boost.Asio, TCP_NODELAY, signals, thread pools and the accept loop (`src/http_server.cpp`): only the completions of the operations above are kept.
- Interleaving inside one callback and weak memory: each callback, each pool job and each idle check is one step.
- The clock: whether a connection has been quiet too long is an input of the idle check; `last_active_time_` is not kept.
- Running out of memory: `reserve` and `resize` fail only for sizes over `max_size()`. Its value is that of libstdc++; no proof uses more than that it is below 2^64.
- What a process does with an exception that leaves a callback: the model records it and stops there.
- Scatter-gather pointers and buffer lifetimes: a gathered write is a sequence of byte strings.
- `HttpServer`, `ServerStatus`, logging, `stringify`, the error helpers of `src/http_util.cpp`, and plain accessors and setters: they would add only easy members.
- The `id`, `retry` and comment lines of event streams: `write_sse_event` never sends them, and the receiver ignores them.
