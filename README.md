# neubot-runtime HTTP streams, modelled in Dafny

This project models the core of neubot-runtime's networking layer and
proves properties of the model:

- the HTTP/1.x receive engine of `HttpStream`, which re-joins incoming
  fragments, cuts them into lines and fixed-length pieces, enforces a
  32 KiB line cap and runs the framing states (first line, headers,
  bounded and unbounded bodies, chunked transfer coding with its
  trailer);
- the send side of `HttpStream`, a FIFO of buffers and body sources;
- the non-blocking `Stream` beneath it, with its pending-receive,
  pending-send and deferred-close flags, byte counters and `atclose`
  functions;
- the client role (a FIFO of requests matched to responses) and the
  server role (one request slot, `Connection: close` rewriting, the
  access-log fields);
- `HttpServer`'s prefix routing with its 403 and 500 pages;
- the smaller helpers: `urlsplit` post-processing, the `Pollable`
  watchdog, `RandomBody`'s read budget and the `utils_rc` configuration
  grammar.

There is one module per source file:

| module | file it models | form |
|---|---|---|
| `Common`, `PyStr` | the Python byte and string operations the code calls | pure |
| `Pollable` | `pollable.py` | class and predicate |
| `Stream` | `stream.py` | class |
| `HttpFraming` | the receive logic of `http_stream.py` | pure specification |
| `HttpStream` | `http_stream.py` | class proved against `HttpFraming` |
| `HttpMessage` | the message interface the streams use | values |
| `HttpClientStream` | `http_client_stream.py` | class and role functions |
| `HttpServerStream` | `http_server_stream.py` | class and role functions |
| `HttpServer` | `http_server.py` | class and routing functions |
| `HttpMisc` | `http_misc.py` | pure |
| `RandomBody` | `random_body.py` | class |
| `UtilsRc` | `utils_rc.py` | loop proved against a function |

The role layers are subclasses in the source. Here they are a `Hooks<R>`
value: one function per callback, from the role's state to its new state,
giving `None` when the callback raises. `HttpFraming.Scan` is the loop of
`recv_complete` written as a function. `HttpStream.HttpStream.RecvComplete`
is that loop written as a method over the class's fields, and it is
proved to end where `Scan` ends. The main properties are proved about
`Scan`:

- the body the role receives, and the state reached, do not depend on
  how the octets were cut into reads (`HttpFraming.SplitIndependent`);
- a chunked body is decoded into exactly its chunks, with the trailer
  discarded (`HttpFraming.ChunkedRoundTrip`);
- no remainder ever holds a newline or more than MAXLINE octets
  (`HttpFraming.ScanRemainder`).

On the send side, while the stream stays open, every octet queued is
written once and in order (`HttpStream.HttpStream.HandleWrite`,
`HttpStream.FlushedKeepsOrder`). A close asked for during a send waits
for that send only: what is queued behind it is never written, a
defect recorded under "## Findings" (`HttpStream.DeferredCloseAsWrittenDropsBody`).

The model follows the source except where "## Findings" records a
defect. For the first three of them the corrected behaviour is the one
the classes have: `HttpStream.HttpStream.Flush` stops while the stream
is closing, `Stream.Stream.HandleWrite` completes an empty send, and
`HttpStream.HttpStream.RecvComplete` and `HandleRead` check every line
against MAXLINE (`HttpFraming.Scan` with the `EveryLine` cap; the
`RemainderOnly` cap is the source as written). The fourth, the deferred
close, is kept as written in the classes and corrected on values.

Some specification functions have no contract of their own; the lemmas
named here state their properties:

- `HttpFraming.Scan`, the loop of http_stream.py:117-176:
  `ScanRemainder`, `ScanSplit`, `SplitIndependent`, `ChunkedRoundTrip`,
  `PieceTaken`, `LineTaken`, `LineWithin`, `AfterCases`, `ClosingStopsAfterOneStep`;
- `HttpFraming.GotLine`, `_got_line` at http_stream.py:178-239:
  `FoldedHeaderRejected`, `HeaderLineSplit`, `HeaderWithoutColon`,
  `HeaderColonStep`, `EndOfHeadersDecides`, `SizeLineHandled`,
  `ChunkLengthLine`, `ChunkEndHandled`, `TrailerHandled`;
- `HttpFraming.GotPiece`, `_got_piece` at http_stream.py:241-263:
  `UnboundedDrain`, `PieceShift`, `ChunkPieceStep`;
- `HttpStream.Flushed`, `_flush` at http_stream.py:100-115:
  `FlushedKeepsOrder`, `FlushAsWrittenAgrees`;
- `HttpStream.Entries`, `send_message` at http_stream.py:76-92:
  `MessageOctets`;
- `PyStr.Strip`: `StripSpec`, `StripNonBlank`;
- `PyStr.ParseInt16`, `int(_, 16)` at http_stream.py:213:
  `ParseHexString`, `ParsePrefixedHexString`, `ParseNegatedHexString`;
- `UtilsRc.Outcome`, the loop of utils_rc.py:26-40:
  `OutcomeFailsAtFirstBad`, `FailureSticks`, `LastValueWins`,
  `UtilsRc.Parse`;
- `HttpServerStream.TimeString`, http_server_stream.py:91-94:
  `TimeStringFields`; `HttpServerStream.AccessLogLine`,
  http_server_stream.py:90-102, is that string between the peer
  address, the request line, the status code and `LoggedBytes`;
- `HttpServerStream.ServerHooks`, the callbacks of http_server_stream.py:54-74:
  the rows of `GotRequestLine` to `GotEndOfBody`, `ServerPiecesAdditive`,
  `ServerSplitIndependent`, `ClosingRequestStops`;
- `HttpClientStream.ClientHooks`, the callbacks of http_client_stream.py:50-81:
  the rows of `GotStatusLine` to `GotEndOfBody`, `CallbacksKeepSendOrder`,
  `ClientPiecesAdditive`, `ClientSplitIndependent`.

Sockets, the poller and the clock are not modelled:

- what `recv` and `send` returned is a parameter of the event handlers;
- the poller's readable and writable registries are ghost sets;
- tick counts and `gmtime` fields are parameters.

## Model

| member | source | states |
|---|---|---|
| Common.Find | neubot_runtime/http_stream.py:147 | `find` gives -1 exactly when the element does not occur from `start` on; otherwise the index of its first occurrence there |
| Common.FindFrom | neubot_runtime/http_stream.py:147 | searching from an offset is searching the suffix that starts there, shifted by the offset |
| Common.Latin1 | neubot_runtime/http_stream.py:157 | ISO-8859-1 decoding keeps the length and maps each octet to the code point of the same value |
| PyStr.StripSpec | neubot_runtime/http_stream.py:191 | `strip()` is empty exactly for all-whitespace text; otherwise it is the text between the leading and trailing whitespace, and it neither starts nor ends with whitespace |
| PyStr.StripNonBlank | neubot_runtime/http_stream.py:182 | text with a non-whitespace character strips to a non-empty slice that neither starts nor ends with whitespace |
| PyStr.SplitWs | neubot_runtime/http_stream.py:211 | `split()` gives only non-empty words that contain no whitespace |
| PyStr.SplitWsJoined | neubot_runtime/http_stream.py:211 | words put between runs of whitespace, the inner runs not empty, split back into exactly those words |
| PyStr.GapsSeparate | neubot_runtime/http_stream.py:211 | the whitespace `split()` drops is one run more than there are words, each run all whitespace and the inner ones not empty |
| PyStr.SplitWsRebuilds | neubot_runtime/http_stream.py:211 | the words of `split()` put back between those runs give the input again, so the words are its maximal non-whitespace runs, in order |
| PyStr.SplitWsFirst | neubot_runtime/http_stream.py:211-213 | the first field of a word followed by whitespace is that word |
| PyStr.SplitMax | neubot_runtime/http_stream.py:184 | `split(None, 2)` gives at most three fields, none empty and none starting with whitespace |
| PyStr.Lower | neubot_runtime/http_stream.py:197 | `lower()` keeps the length |
| PyStr.HexString | neubot_runtime/http_stream.py:213 | the hexadecimal rendering of a number is a non-empty run of hexadecimal digits |
| PyStr.HexStringValue | neubot_runtime/http_stream.py:213 | those digits denote the number back |
| PyStr.ParseHexString | neubot_runtime/http_stream.py:213 | `int(_, 16)` reads a number's hexadecimal rendering back as that number |
| PyStr.ParsePrefixedHexString | neubot_runtime/http_stream.py:213 | `int(_, 16)` accepts and ignores a `0x` prefix |
| PyStr.ParseNegatedHexString | neubot_runtime/http_stream.py:213-215 | `int(_, 16)` reads a leading minus sign as a negative value, the value the negative-length check refuses |
| PyStr.ParseUnderscored | neubot_runtime/http_stream.py:213 | `int(_, 16)` as Python 3 defines it reads "1_0" as 16 and refuses a doubled underscore; a supporting example, not a general statement |
| PyStr.ZeroPadValue | neubot_runtime/http_server_stream.py:92-94 | `%0Nd` gives at least N decimal digits, exactly N when the number has no more, and they read back as the number |
| PyStr.DecimalLength | neubot_runtime/http_server_stream.py:92-94 | a supporting fact for the access-log fields: a number below 10^k takes at most k digits, when k > 0 (zero, the only number below 10^0, takes one) |
| Pollable.Pollable.constructor | neubot_runtime/pollable.py:18-20 | a new pollable starts its watchdog at creation time with the default of 300 seconds |
| Pollable.Pollable.HandlePeriodic | neubot_runtime/pollable.py:34-36 | the periodic check is true exactly when the watchdog is not negative and strictly more than that many seconds have passed, stated through `Expired`, the predicate `FreshTimeoutGrace` and the two lemmas after it are about |
| Pollable.Pollable.SetTimeout | neubot_runtime/pollable.py:38-41 | a new timeout restarts the watchdog at the current tick |
| Pollable.DisabledNeverExpires | neubot_runtime/pollable.py:36 | a supporting fact, one line of arithmetic: a negative watchdog never expires |
| Pollable.ExpiryIsPermanent | neubot_runtime/pollable.py:36 | a supporting fact, one line of arithmetic: once expired, a pollable stays expired as time goes on |
| Pollable.FreshTimeoutGrace | neubot_runtime/pollable.py:38-41 | after `set_timeout(t)` with t >= 0 the pollable expires exactly when more than t seconds have passed, so not at that tick and not at t seconds |
| Stream.Stream.constructor | neubot_runtime/stream.py:24-48 | a new stream has all flags clear, nothing pending, zero counters, no `atclose` function and a fresh watchdog |
| Stream.Stream.AtClose | neubot_runtime/stream.py:59-63 | `atclose` adds the function to a set, so a duplicate is kept once; nothing else changes |
| Stream.Stream.UnregisterAtClose | neubot_runtime/stream.py:65-68 | `unregister_atclose` removes the function if present; nothing else changes |
| Stream.Stream.HandleClose | neubot_runtime/stream.py:83-107 | the first call marks the stream closed, drops the pending octets, calls every registered function exactly once, clears the set and reports `connection_lost`; any later call changes nothing |
| Stream.Stream.PollerClose | neubot_runtime/stream.py:81 | closing through the poller unregisters the stream for reading and writing, then runs `handle_close` |
| Stream.Stream.Close | neubot_runtime/stream.py:73-81 | `close` always sets `close_pending`; it defers while a send is pending, does nothing more on a closed stream, and otherwise closes now |
| Stream.Stream.StartRecv | neubot_runtime/stream.py:109-116 | a closing stream ignores `start_recv`, a pending receive refuses it; otherwise the receive becomes pending and the stream is registered for reading, and nothing else changes |
| Stream.Stream.StartSend | neubot_runtime/stream.py:149-157 | the same for `start_send`, which also stores the octets to send |
| Stream.Stream.HandleRead | neubot_runtime/stream.py:118-144 | soft errors change nothing; other errors propagate; data ends the receive, counts its octets and goes up unchanged; the end of file sets `eof` and a reset sets `rst`, and both close the stream |
| Stream.Stream.HandleWrite | neubot_runtime/stream.py:159-198 | a complete write ends the send and then completes it, or resumes a deferred close; a partial write keeps the unsent suffix; a count that is too large raises; a reset and a zero-octet write of a non-empty buffer close the stream; soft errors change nothing; a zero-octet write of an empty buffer ends the send like any complete one, the correction in "## Findings", row 2 (as written, stream.py:192-194 leaves the send pending) |
| HttpFraming.PieceTaken | neubot_runtime/http_stream.py:134-143 | while `_left > 0` the piece is exactly the first `min(_left, available)` octets and `_left` drops by that amount |
| HttpFraming.LineTaken | neubot_runtime/http_stream.py:146-157 | looking for a line, everything up to and including the first newline goes to `_got_line` and the rest is scanned next; with every line checked (the correction in "## Findings", row 3) a line longer than MAXLINE raises, whereas as written only octets kept without a newline are checked |
| HttpFraming.ScanNoLine | neubot_runtime/http_stream.py:147-151 | with no newline the octets wait for more, or raise "Line too long" when there are more than MAXLINE of them |
| HttpFraming.ScanLine | neubot_runtime/http_stream.py:146-157 | a line within the cap is handed over, newline included, and scanning goes on after it |
| HttpFraming.NoLineYet | neubot_runtime/http_stream.py:147-151 | under either line cap, octets without a newline are kept when at most MAXLINE and raise otherwise |
| HttpFraming.LineStep | neubot_runtime/http_stream.py:146-157 | under either line cap, a line within the cap is handed over and scanning goes on after it |
| HttpFraming.LineWithin | neubot_runtime/http_stream.py:146-157 | a line of at most MAXLINE octets goes whole to `_got_line`, and the rest is scanned next, under the check as written and the corrected one alike |
| HttpFraming.AfterCases | neubot_runtime/http_stream.py:163-166 | after each line or piece, scanning stops on an exception, returns at once when the stream is closing, and otherwise goes on |
| HttpFraming.StepPassed | neubot_runtime/http_stream.py:159-166 | one step taken as the loop takes it leaves the loop where the scan says |
| HttpFraming.PiecePassed | neubot_runtime/http_stream.py:134-143 | one pass that hands over a piece leaves the loop where the scan says |
| HttpFraming.LinePassed | neubot_runtime/http_stream.py:146-157 | one pass that hands over a line leaves the loop where the scan says |
| HttpFraming.WaitingRemainder | neubot_runtime/http_stream.py:169-172 | a remainder kept for the next read holds no newline and at most MAXLINE octets, and it is only kept while a line is awaited |
| HttpFraming.ScanRemainder | neubot_runtime/http_stream.py:169-172 | the same bound holds for every scan |
| HttpFraming.PieceRemainder | neubot_runtime/http_stream.py:134-143 | the bound holds for a scan that starts with a piece |
| HttpFraming.LineRemainder | neubot_runtime/http_stream.py:146-157 | the bound holds for a scan that starts with a line |
| HttpFraming.AfterRemainder | neubot_runtime/http_stream.py:163-166 | the bound holds for what follows a step |
| HttpFraming.ClosingStopsAfterOneStep | neubot_runtime/http_stream.py:163-166 | on a closing stream at most one line or piece is handled before `recv_complete` returns |
| HttpFraming.FoldedHeaderRejected | neubot_runtime/http_stream.py:189-190 | a header line that starts with a space or a tab raises (obsolete line folding, which section 3.2.4 of RFC 7230 lets a recipient reject) |
| HttpFraming.HeaderLineSplit | neubot_runtime/http_stream.py:191-199 | a non-blank header line without a colon raises; one with a colon is split at the first colon into a lower-cased, stripped name and a stripped value for the role |
| HttpFraming.HeaderWithoutColon | neubot_runtime/http_stream.py:198-199 | a stripped header line without a colon raises "Invalid header line" |
| HttpFraming.HeaderColonStep | neubot_runtime/http_stream.py:194-197 | a header line whose first colon is at `i` hands the role the lower-cased, stripped text before it and the stripped text after it |
| HttpFraming.BlankHeaderStep | neubot_runtime/http_stream.py:200-208 | a blank header line takes the state and `_left` from the role; ERROR closes and FIRSTLINE ends the body at once |
| HttpFraming.EndOfHeadersDecides | neubot_runtime/http_stream.py:200-208 | the same, for every all-whitespace header line |
| HttpFraming.DeliverAppend | neubot_runtime/http_stream.py:241-263 | for a role that does not care how a body is cut, delivering `a + b` is delivering `a` then `b` |
| HttpFraming.UnboundedDrain | neubot_runtime/http_stream.py:251-254 | in UNBOUNDED all the data goes to the role and `_left` is back at MAXBUF, whatever it was |
| HttpFraming.PieceShift | neubot_runtime/http_stream.py:244-260 | in BOUNDED or CHUNK, one piece `p1 + p2` has the effect of `p1` then `p2` |
| HttpFraming.ScanSplit | neubot_runtime/http_stream.py:117-176 | scanning `a + b` in one read ends where scanning `a` and then `b` in the next read ends: same state, same role state, same remainder, or the same exception |
| HttpFraming.WaitingRemainderSettled | neubot_runtime/http_stream.py:169-172 | the remainder a scan keeps could not have been scanned further |
| HttpFraming.ScanSplitPiece | neubot_runtime/http_stream.py:134-143 | the split property when the engine looks for a piece |
| HttpFraming.SplitAfterPiece | neubot_runtime/http_stream.py:134-143 | the split property when the first read holds the whole piece |
| HttpFraming.SplitUnbounded | neubot_runtime/http_stream.py:251-254 | the split property for an UNBOUNDED body |
| HttpFraming.SplitInsidePiece | neubot_runtime/http_stream.py:134-143 | the split property when the first read ends inside a piece of known length |
| HttpFraming.InsideKnownPiece | neubot_runtime/http_stream.py:134-143 | a piece cut by a read boundary continues in the next read as one piece |
| HttpFraming.FeedAllJoin | neubot_runtime/http_stream.py:121-125 | a run of reads fed one after another ends as the joined reads fed at once |
| HttpFraming.SplitIndependent | neubot_runtime/http_stream.py:117-176 | however a connection's octets are cut into reads, the engine ends in the same state with the same role state (so the same delivered body) and the same remainder, or raises for the same reason |
| HttpFraming.LongLineDependsOnSplit | neubot_runtime/http_stream.py:147-151 | as written, a line longer than MAXLINE is accepted when its newline arrives in the same read and refused when it does not; with every line checked it is refused either way |
| HttpFraming.SizeLineHandled | neubot_runtime/http_stream.py:210-220 | in CHUNK_LENGTH a size line moves to TRAILER for size 0 and to CHUNK with `_left` set to the size otherwise |
| HttpFraming.ChunkLengthLine | neubot_runtime/http_stream.py:210-220 | the same for any line whose first field reads as that size, extensions after it ignored |
| HttpFraming.SizeLineStep | neubot_runtime/http_stream.py:210-220 | scanning a size line moves to CHUNK with that many octets to go, or to TRAILER for 0; for either line check, as written or corrected |
| HttpFraming.ChunkEndHandled | neubot_runtime/http_stream.py:224-228 | in CHUNK_END a blank line returns to CHUNK_LENGTH |
| HttpFraming.ChunkEndStep | neubot_runtime/http_stream.py:224-228 | scanning CRLF in CHUNK_END returns to CHUNK_LENGTH on the octets that follow; for either line check, as written or corrected |
| HttpFraming.ChunkPieceStep | neubot_runtime/http_stream.py:256-260 | the data of a chunk goes to the role as one piece, then CHUNK_END; for either line check, as written or corrected |
| HttpFraming.OneChunk | neubot_runtime/http_stream.py:210-260 | one chunk, from its size line to its CRLF, gives the role exactly its data; for either line check, as written or corrected |
| HttpFraming.ChunksDecoded | neubot_runtime/http_stream.py:210-260 | a run of chunks gives the role exactly their concatenation; for either line check, as written or corrected |
| HttpFraming.TrailerHandled | neubot_runtime/http_stream.py:230-236 | in TRAILER a non-blank line is ignored and a blank one ends the body at FIRSTLINE |
| HttpFraming.TrailersSkipped | neubot_runtime/http_stream.py:230-236 | trailer fields are read and discarded (section 4.1.2 of RFC 7230); for either line check, as written or corrected |
| HttpFraming.LastLineStep | neubot_runtime/http_stream.py:230-233 | the empty line after the trailer ends the body, and scanning goes on at FIRSTLINE unless the role closed the stream; for either line check, as written or corrected |
| HttpFraming.ChunkedRoundTrip | neubot_runtime/http_stream.py:210-263 | decoding the chunked coding of a body (section 4.1 of RFC 7230) gives the role exactly the concatenation of the chunks, discards the trailers, ends the body and leaves the engine at FIRSTLINE on the octets that follow; this holds for the scan as written and for the corrected one alike, since no line of the coding is longer than MAXLINE |
| HttpMessage.SetHeader | neubot_runtime/http_client_stream.py:60 | setting a header gives it that value and leaves every other header as it was |
| HttpMessage.DeleteHeader | neubot_runtime/http_server_stream.py:82 | deleting a header leaves it missing and every other header as it was |
| HttpStream.QueueBytesAppend | neubot_runtime/http_stream.py:88-92 | the octets of a concatenated queue are those of its parts, in order |
| HttpStream.UnsentAppend | neubot_runtime/http_stream.py:88-93 | entries queued at the tail go out after everything already unsent |
| HttpStream.FlushedKeepsOrder | neubot_runtime/http_stream.py:100-115 | flushing keeps the queue's octets and their order; it stops with the new head being sent, or with an empty queue that stood for no octets |
| HttpStream.MessageOctets | neubot_runtime/http_stream.py:76-92 | a message of length 0 to SMALLMESSAGE is queued as its headers joined with the first read of its body; any other message as its headers and then its whole body |
| HttpStream.FlushAsWrittenSpins | neubot_runtime/http_stream.py:100-115 | as written, once a close is pending a buffer at the head is never sent nor removed, so the loop never ends |
| HttpStream.FlushAsWrittenSpinsOnSource | neubot_runtime/http_stream.py:104-110 | as written, a source at the head is read once and the loop then spins on what it read |
| HttpStream.FlushAsWrittenAgrees | neubot_runtime/http_stream.py:100-115 | on a stream that is not closing, the loop as written ends within as many passes as the queue has entries, where `Flushed` says |
| HttpStream.FullWrite | neubot_runtime/stream.py:181-187 | a supporting definition: with the close waiting for the queue, a complete write closes the stream exactly when a close was asked for and no send follows; what it guarantees about the queue is stated by `HttpStream.FullWriteKeepsQueue` |
| HttpStream.FullWriteKeepsQueue | neubot_runtime/stream.py:181-187 | with the close waiting for the queue, a complete write puts the pending octets on the wire and keeps the rest unsent in order, and the stream closes only with nothing left unsent |
| HttpStream.DeferredCloseAsWrittenDropsBody | neubot_runtime/stream.py:181-187 | as written, a message longer than SMALLMESSAGE closed while its headers are being sent loses its body: the write that completes the headers closes the stream; with the close waiting for the queue the body is sent and the stream closes after it |
| HttpStream.ZeroWriteAsWrittenLosesOctets | neubot_runtime/stream.py:192-194 | as written, a zero-octet write of an empty buffer drops the queued message behind it, unwritten, while the send stays pending; a concrete counterexample for "## Findings", row 2 |
| HttpStream.HttpStream.constructor | neubot_runtime/http_stream.py:59-64 | a new HTTP stream awaits a first line with nothing retained and nothing queued |
| HttpStream.HttpStream.ConnectionMade | neubot_runtime/http_stream.py:66-68 | `connection_made` starts the first receive, as `start_recv` decides |
| HttpStream.HttpStream.ConnectionLost | neubot_runtime/http_stream.py:70-74 | losing the connection at the end of file ends an UNBOUNDED body; in every other case the engine is untouched; the remainder is dropped |
| HttpStream.HttpStream.Close | neubot_runtime/stream.py:73-81 | `close` on the HTTP stream: deferred while a send is pending, immediate otherwise, running `connection_lost`; the framing state and the queue are kept |
| HttpStream.HttpStream.GotEndOfBody | neubot_runtime/http_stream.py:247-249 | the role's end of body, and the close it may ask for |
| HttpStream.HttpStream.GotFirstLine | neubot_runtime/http_stream.py:181-186 | the first line goes to the role as its three fields and the engine moves to HEADER, as `HttpFraming.GotLine` says |
| HttpStream.HttpStream.GotHeaderLine | neubot_runtime/http_stream.py:188-208 | a header line, or the blank line that ends the headers, does what `HttpFraming.GotLine` says, closing the stream when that says so |
| HttpStream.HttpStream.EndOfHeadersLine | neubot_runtime/http_stream.py:200-208 | the blank line after the headers does what `HttpFraming.GotLine` says |
| HttpStream.HttpStream.GotChunkLength | neubot_runtime/http_stream.py:210-222 | a chunk size line does what `HttpFraming.GotLine` says |
| HttpStream.HttpStream.GotLine | neubot_runtime/http_stream.py:178-239 | every line does what `HttpFraming.GotLine` says, in every state |
| HttpStream.HttpStream.GotPiece | neubot_runtime/http_stream.py:241-263 | every piece does what `HttpFraming.GotPiece` says, in every state |
| HttpStream.HttpStream.TakePiece | neubot_runtime/http_stream.py:134-143 | one pass of the loop that hands over a piece advances the offset and leaves the loop where `Scan` says |
| HttpStream.HttpStream.PassLine | neubot_runtime/http_stream.py:152-157 | handing over the line that ends at a newline moves the offset past it and leaves the loop where `Scan` says |
| HttpStream.HttpStream.NoLine | neubot_runtime/http_stream.py:147-151 | without a newline within reach the octets wait, or "Line too long" is raised |
| HttpStream.HttpStream.TakeLine | neubot_runtime/http_stream.py:146-157 | one pass of the loop that looks for a line waits, or leaves the loop where `Scan` says |
| HttpStream.HttpStream.RecvComplete | neubot_runtime/http_stream.py:117-176 | `recv_complete`, with every line checked against MAXLINE (the correction in "## Findings", row 3), ends where `Scan` of the remainder joined with the new octets ends: that engine state, that remainder kept or none, that exception, and a new receive started exactly when the scan is waiting on a stream that is not closing |
| HttpStream.HttpStream.Flush | neubot_runtime/http_stream.py:100-115 | the corrected `_flush` of "## Findings", row 1: it does nothing while a send is pending or the stream is closing, and otherwise flushes the queue as `Flushed` says, starting the send of the new head; as written, a call made once a close is pending never leaves its loop (`HttpStream.FlushAsWrittenSpins`) |
| HttpStream.HttpStream.SendMessage | neubot_runtime/http_stream.py:76-93 | `send_message` queues the message's entries and flushes; the octets still to go out are the earlier ones followed by the message's; unless a send was pending or the stream is closing, the send of the flushed head starts (`send_pending` set, its octets stored) and nothing else of the stream beneath changes |
| HttpStream.HttpStream.SendComplete | neubot_runtime/http_stream.py:95-98 | `send_complete` drops the head that was sent and flushes the rest; what is still to go out is the rest of the queue; unless the stream is closing, the send of the next head starts, and nothing else of the stream beneath changes |
| HttpStream.HttpStream.HandleWrite | neubot_runtime/stream.py:159-198 | while the stream stays open, the octets written and the octets still to go out make up what was to go out before, so they reach the wire once and in order; a complete write with a close pending closes the stream and leaves the rest of the queue unwritten, as written (see "## Findings", row 4); socket errors and an oversize count are reported |
| HttpStream.HttpStream.HandleRead | neubot_runtime/stream.py:118-144 | data goes through `recv_complete` with the result `Scan` with every line checked says (the correction in "## Findings", row 3); the end of file and a reset close the stream, which ends an UNBOUNDED body at the end of file |
| HttpClientStream.GotStatusLine | neubot_runtime/http_client_stream.py:50-56 | an unknown protocol raises; otherwise protocol, code and reason are set on the head's response and nothing else changes |
| HttpClientStream.GotHeader | neubot_runtime/http_client_stream.py:58-60 | the header is set on the head's response, every other header and entry unchanged |
| HttpClientStream.GotEndOfHeaders | neubot_runtime/http_client_stream.py:62-67 | a refused response gives (ERROR, 0); an accepted one what `nextstate` decides for the head's request and response |
| HttpClientStream.GotBodyPiece | neubot_runtime/http_client_stream.py:69-71 | the piece is recorded, after the earlier ones, as handed to the parent's `got_response_body_piece` for the head's response; the request and the response themselves are unchanged, and so is every other exchange |
| HttpClientStream.GotEndOfBody | neubot_runtime/http_client_stream.py:73-81 | exactly the head leaves the queue and is handed to the parent; the stream closes exactly when the request or the response says `Connection: close` |
| HttpClientStream.CallbacksKeepSendOrder | neubot_runtime/http_client_stream.py:73-77 | no callback reorders, drops or changes requests, so responses pair with requests in the order they were sent |
| HttpClientStream.ClientPiecesAdditive | neubot_runtime/http_client_stream.py:69-71 | the response body the parent gets does not depend on how it was cut into pieces |
| HttpClientStream.ClientSplitIndependent | neubot_runtime/http_stream.py:117-176 | however the responses' octets arrive, the client ends in the same state as if they had arrived in one read |
| HttpClientStream.HttpClientStream.constructor | neubot_runtime/http_client_stream.py:37-40 | a new client stream has an empty request queue |
| HttpClientStream.HttpClientStream.SendRequest | neubot_runtime/http_client_stream.py:42-48 | the request goes to the tail of the queue, linked to the given response or a blank one, and its octets go out after everything sent before |
| HttpServerStream.GotRequestLine | neubot_runtime/http_server_stream.py:54-57 | an unknown protocol raises; otherwise the slot gets a new request with that method, URI and protocol |
| HttpServerStream.GotHeader | neubot_runtime/http_server_stream.py:59-60 | the header is set on the request in the slot, every other header unchanged |
| HttpServerStream.GotEndOfHeaders | neubot_runtime/http_server_stream.py:62-65 | a refused request gives (ERROR, 0); an accepted one what `nextstate` decides for it |
| HttpServerStream.GotBodyPiece | neubot_runtime/http_server_stream.py:67-68 | the piece is recorded, after the earlier ones, as handed to the parent's `got_request_body_piece` for the request in the slot; the request itself is unchanged |
| HttpServerStream.GotEndOfBody | neubot_runtime/http_server_stream.py:70-74 | the request goes to the parent and the slot is emptied; the stream is closed afterwards exactly when the parent's `got_request` closed it |
| HttpServerStream.ClosingRequestStops | neubot_runtime/http_stream.py:159-166 | a bodyless request whose `got_request` closes the stream ends the scan at the blank line after its headers; the octets behind it, a pipelined request for instance, are never read |
| HttpServerStream.ServerPiecesAdditive | neubot_runtime/http_server_stream.py:67-68 | the request body the parent gets does not depend on how it was cut into pieces |
| HttpServerStream.ServerSplitIndependent | neubot_runtime/http_stream.py:117-176 | however the requests' octets arrive, the server ends in the same state as if they had arrived in one read |
| HttpServerStream.FinalResponse | neubot_runtime/http_server_stream.py:79-83 | the response as rewritten; when the request says `Connection: close` or is HTTP/1.0, its connection header becomes exactly "close" and nothing else changes |
| HttpServerStream.LoggedBytes | neubot_runtime/http_server_stream.py:98-102 | the logged byte count is "-" for a missing, empty or "0" content length, and that value otherwise |
| HttpServerStream.PaddedField | neubot_runtime/http_server_stream.py:92-94 | a zero-padded field of a number that fits is exactly that many digits and reads back as the number |
| HttpServerStream.MonthLength | neubot_runtime/http_server_stream.py:40-43 | each month of the table, 1 to 12, has a three-letter name |
| HttpServerStream.Layout | neubot_runtime/http_server_stream.py:92-94 | the time string's fields and separators sit at fixed positions |
| HttpServerStream.TimeStringFields | neubot_runtime/http_server_stream.py:91-94 | for usual field sizes the time string is 26 characters, `DD/Mon/YYYY:HH:MM:SS -0000`, and each field reads back at its position |
| HttpServerStream.HttpServerStream.constructor | neubot_runtime/http_server_stream.py:49-52 | a new server stream has an empty slot and a rewriter that leaves responses as they are |
| HttpServerStream.HttpServerStream.SendResponse | neubot_runtime/http_server_stream.py:76-88 | the final response is queued after everything sent before, and a close is asked for exactly when that response says `Connection: close`; the close waits for the send in progress only, so a response queued as headers and body loses its body (see "## Findings", row 4) |
| HttpServer.Lookup | neubot_runtime/http_server.py:41 | a prefix that is absent has no child; a present one has the child of its route |
| HttpServer.LookupAt | neubot_runtime/http_server.py:41 | each route's prefix looks up that route's child |
| HttpServer.AppendLookup | neubot_runtime/http_server.py:39-41 | adding a new prefix keeps every other entry |
| HttpServer.ReplaceLookup | neubot_runtime/http_server.py:39-41 | giving an existing prefix a new child keeps every other entry and the order of prefixes |
| HttpServer.FirstMatch | neubot_runtime/http_server.py:66-69 | the index of the first route whose prefix the URI starts with, or -1 when none does |
| HttpServer.Decide | neubot_runtime/http_server.py:56-73 | a URI not starting with "/", and one no prefix matches, are forbidden; otherwise the first matching child gets the request |
| HttpServer.ReplaceKeepsMatch | neubot_runtime/http_server.py:39-41 | re-registering a prefix changes no routing decision's position, only the child it names |
| HttpServer.AppendKeepsMatch | neubot_runtime/http_server.py:39-41 | a route added at the end is consulted only when no earlier one matches |
| HttpServer.ReregisterRoutesToNewChild | neubot_runtime/http_server.py:39-41 | registering the same prefix again routes its requests to the new child |
| HttpServer.RequestCloses | neubot_runtime/http_server.py:56-82 | `got_request` leaves the stream closing when a forbidden request's 403 page goes out with `Connection: close`, always so for HTTP/1.0 and for requests asking for it, and when the routed child raises |
| HttpServer.OnInternalError | neubot_runtime/http_server.py:87-100 | the 500 "Internal Server Error" page, closing the connection, is queued after everything sent before, and the stream is closed |
| HttpServer.HttpServer.constructor | neubot_runtime/http_server.py:35-37 | a new server has no child |
| HttpServer.HttpServer.RegisterChild | neubot_runtime/http_server.py:39-41 | afterwards the prefix names the child and every other prefix names what it named before; a new prefix goes at the end, an existing one keeps its place |
| HttpServer.HttpServer.Match | neubot_runtime/http_server.py:66-69 | the search loop finds the first matching route |
| HttpServer.HttpServer.GotRequestHeaders | neubot_runtime/http_server.py:43-54 | true when no prefix matches; the first matching child's verdict otherwise; a child that raises leads to the internal-error page, a closed stream and false |
| HttpServer.HttpServer.ProcessRequest | neubot_runtime/http_server.py:56-73 | a forbidden request gets the 403 page and no child, and a close is asked for exactly when that page says `Connection: close`; otherwise the first matching child gets it and nothing is sent here |
| HttpServer.HttpServer.GotRequest | neubot_runtime/http_server.py:75-82 | `process_request`, with a child that raises turned into the internal-error page and a closed stream; afterwards the stream is closing exactly when it was before or `RequestCloses` says so |
| HttpMisc.PathQuery | neubot_runtime/http_misc.py:58-63 | the path part is never empty: the path, or "/" for none, followed by "?" and the query when there is one |
| HttpMisc.UrlSplit | neubot_runtime/http_misc.py:26-63 | each of the three errors happens exactly in its case (unknown scheme; "[" without "]"; text after "]" that does not start with ":"); on success the scheme and path part are kept |
| HttpMisc.HostPortRoundTrip | neubot_runtime/http_misc.py:51-52 | a host and port joined by ":" split back into the same two |
| HttpMisc.HostDefaultPort | neubot_runtime/http_misc.py:53-56 | a host with no port gets 443 for https and 80 for http |
| HttpMisc.QuotedParts | neubot_runtime/http_misc.py:33-38 | the address of a quoted netloc is the text between "[" and the first "]" |
| HttpMisc.QuotedRoundTrip | neubot_runtime/http_misc.py:40-49 | a quoted address followed by ":" and a port splits back into the same two |
| HttpMisc.QuotedPort | neubot_runtime/http_misc.py:46-49 | the port of a quoted netloc is the stripped text after "]" with its ":" removed |
| HttpMisc.QuotedDefaultPort | neubot_runtime/http_misc.py:41-45 | a quoted address with nothing but whitespace after the "]" gets the default port |
| HttpMisc.PathQueryRoundTrip | neubot_runtime/http_misc.py:58-63 | the path and query can be read back from the path part |
| RandomBody.Amount | neubot_runtime/random_body.py:21-24 | a read takes at most the budget, the block size and any non-zero request, and exactly one of them |
| RandomBody.SliceTo | neubot_runtime/random_body.py:27 | Python's `s[:n]`: a prefix of `s`, of length `min(n, len(s))` for `n >= 0`, and counting from the end for `n < 0` |
| RandomBody.Amounts | neubot_runtime/random_body.py:20-29 | one amount per read |
| RandomBody.AmountsAddUp | neubot_runtime/random_body.py:24-26 | whatever the reads, what they take and what is left add up to the initial budget |
| RandomBody.RemainingNonNegative | neubot_runtime/random_body.py:24-26 | a non-negative budget never goes negative |
| RandomBody.ReadUntilEmpty | neubot_runtime/random_body.py:25-26 | the amounts of reads up to an empty one add up to the initial budget |
| RandomBody.LastAmountZero | neubot_runtime/random_body.py:22-28 | an empty read means nothing is left |
| RandomBody.RandomBody.constructor | neubot_runtime/random_body.py:15-18 | a new body holds its whole budget |
| RandomBody.RandomBody.Read | neubot_runtime/random_body.py:20-29 | the budget drops by exactly the amount and the block cut to it is returned; nothing is returned and nothing changes when the amount is 0 |
| RandomBody.RandomBody.Seek | neubot_runtime/random_body.py:31-32 | a supporting fact: `seek` changes nothing |
| RandomBody.RandomBody.Tell | neubot_runtime/random_body.py:34-36 | a supporting fact: `tell` is the budget still left |
| UtilsRc.Classify | neubot_runtime/utils_rc.py:29-37 | no tokens is skipped; one token with "=" splits at its first "="; two tokens are a name and a value; anything else is invalid |
| UtilsRc.OutcomeFailsAtFirstBad | neubot_runtime/utils_rc.py:26-37 | the parse fails exactly when a line is bad, and then it names the first bad line, counting blank lines too |
| UtilsRc.FailureSticks | neubot_runtime/utils_rc.py:36-37 | once some leading lines fail, the whole parse fails the same way |
| UtilsRc.LastValueWins | neubot_runtime/utils_rc.py:39-40 | a name is in the result exactly when some line sets it, and then it has the value of the last such line |
| UtilsRc.Parse | neubot_runtime/utils_rc.py:11-42 | both a path and lines raise; neither, or a path that is not a file, give {}; otherwise the result of the loop over the lines |
| UtilsRc.ParseSafe | neubot_runtime/utils_rc.py:44-54 | the configuration, or {} on any error |

## Left out

- The socket, the poller and the clock: what `recv` and `send` returned, and the current tick, are parameters; the poller's readable and writable registries are ghost sets.
- `poller.py`, `http_message.py`, `http_states.py`, `utils.py` and `utils_net.py` are not part of this model. A message is a record whose header lookup gives "" for a missing header; its serialised headers and body are given values, not tied to its header map, so the octets `send_response` queues do not reflect `HttpServerStream.FinalResponse`'s rewrite of `Connection`, which `serialize_headers` would pick up; `compose` is a parameter from page to message.
- `nextstate` is a parameter of the role's environment giving some `(state, left)` pair.
- The role streams' one-argument constructors (http_client_stream.py:37 and http_server_stream.py:49) would not give the base class its four arguments; the four-argument form the callers use is modelled.
- The roles' callbacks do not send here, because the hooks only return a new role state and whether the stream was closed. The server's end of body closes the stream when its environment says the parent's `got_request` did; `HttpServer.RequestCloses` is that decision for `HttpServer`, and what `got_request` queues is modelled by `HttpServer.HttpServer.GotRequest` on the server stream, not inside the hook.
- HttpClientStream.GotEndOfBody: what the parent's `got_response` (http_client_stream.py:77) does is not modelled; that callback may send or close, and the model only records the exchange as answered.
- HttpStream.HttpStream.HandleWrite: keeps the source's deferred close, which waits for the send in progress only; the close that waits for the whole queue is modelled on values, by `HttpStream.FullWrite`, and not in the classes.
- PyStr.ParseInt16: follows `int(s, 16)` as Python 3.6 and later define it, which accepts single underscores between digits; under Python 2 such text raises, so a chunk size like "1_0" is accepted here where a Python 2 run would refuse it.
- `handle_close` calls `connection_lost` and `parent.connection_lost`, then the `atclose` functions. The model returns them to the owner as one upcall with the list of functions fired; their relative order and `parent.connection_lost` are not modelled.
- KeyboardInterrupt and SystemExit, which every handler re-raises, are not modelled.
- Logging is left out, and with it the access log's output; the log line's fields are modelled.
- `urlparse.urlsplit` is not modelled: `UrlSplit` takes its scheme, netloc, path and query.
- `shlex.split` is not modelled: a line is its tokens, or `None` when `shlex.split` raised.
- `str.isspace` and `str.lower` are modelled on the ISO-8859-1 range only, the text a decoded line can hold.
- `utils.safe_seek` and `prettyprintbody` in the end-of-body callbacks are left out: they write no state the model has.
- A file-like body is modelled as the sequence of its `read()` results.
- `HttpServer` iterates over a Python dictionary; the model takes the registration order, with a re-registered prefix keeping its place.
- What a child server does besides accepting, refusing or raising is not modelled.
- Failures swallowed inside `_on_internal_error` are not modelled.
- `HttpServer.connection_made` and `got_request_body_piece` are left out: one builds a stream from a socket, the other does nothing.
- `parse` treats an empty or missing iterable as not given; the model takes an empty list the same way.
- The `RandomBody` block source is a parameter: `Read` takes the block `get_block()` returns.
- HttpStream.HttpStream.HandleWrite: states the octets written, what stays unsent and the failures, not every flag of the stream beneath, which `Stream.Stream.HandleWrite` states.
- HttpStream.HttpStream.HandleRead: states the engine, the remainder and the failures, not every flag of the stream beneath, which `Stream.Stream.HandleRead` states.
- PyStr.SplitMax: states only that at most three non-empty fields come out; the first line's fields are used as `HttpFraming.GotLine` computes them.
- PyStr.Lower: states only that the length is kept.

## Findings

| source | as written | input that shows it | evidently intended | confidence | as-written member | corrected member |
|---|---|---|---|---|---|---|
| neubot_runtime/http_stream.py:100-115 | `_flush` loops while no send is pending and the queue is not empty; once a close is pending, `start_send` returns without starting the send (stream.py:151-152), so the loop retries the same head forever | `send_message` on a stream after `close()` has run, for instance a response sent on a connection a callback already closed | the loop also stops while the stream is closing | not executed; high | HttpStream.FlushAsWrittenSpins | HttpStream.HttpStream.Flush |
| neubot_runtime/stream.py:192-194 | a zero-octet write of an empty buffer calls `send_complete` but leaves `send_pending` set, so `_flush` sends nothing and the next writable event pops the next entry unwritten | queue `[b"", x]` with the empty buffer pending: the next writable event leaves `x` at the head while the empty send stays pending, and the one after pops `x` unwritten | the empty send ends like any other complete send | not executed; medium | HttpStream.ZeroWriteAsWrittenLosesOctets | Stream.Stream.HandleWrite, HttpStream.HttpStream.HandleWrite |
| neubot_runtime/http_stream.py:147-151 | "Line too long" is raised only for octets kept without a newline, so a longer line is accepted when its newline arrives in the same read | 32769 octets with no newline, then a newline: refused when the newline comes in the next read, accepted when it comes in the same one | every line longer than MAXLINE is refused, whatever the reads | not executed; medium | HttpFraming.LongLineDependsOnSplit | HttpFraming.SplitIndependent, HttpStream.HttpStream.RecvComplete, HttpStream.HttpStream.HandleRead |
| neubot_runtime/stream.py:181-187 | a complete write with a close pending closes the stream at once, although `send_message` may have queued more entries behind the send in progress; `send_response` asks for the close right after queueing the response (http_server_stream.py:86-89) | a response longer than SMALLMESSAGE (8000 octets) to an HTTP/1.0 request: it is queued as headers and body, the close waits for the headers only, and the body is never written | the close waits until the whole queue has been written | not executed; medium | HttpStream.DeferredCloseAsWrittenDropsBody | HttpStream.FullWriteKeepsQueue |
