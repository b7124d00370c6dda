# A verified model of the req HTTP client's protocol core

This project models, in Dafny, the parts of the repository where a mistake in accounting, interleaving or encoding
would be silent, and proves what they are for. `dafny verify dfyconfig.toml` checks all of it.

**HTTP/2 flow control and bodies.** `Flow`, `DataBuffer` and `Pipe` are the window, chunk-buffer and pipe objects,
each proved against a value-level specification (a window, a byte queue). `Inbound` says what one frame, body read or
close does to a stream and the connection; `TwoParty` puts the client, any number of streams, a compliant peer and two
FIFO channels into one step system, in which a WINDOW_UPDATE computed under the mutex is written by a later step and may
overtake others. `Agreement` proves the accounting invariant, `AgreementTheorems` the results over whole runs,
`Accusations` when a compliant peer can be accused, `Deliveries` which bytes body reads hand out, and `BodyReads` what
they report when the body ends too early or too late. `Outbound` and
`SendBody` do the same for what the client sends. `ClientConn` holds the stream and connection objects, method by method against those specifications.

**HTTP/2 frames and header blocks.** `Frames` gives the bytes of every Write call and the parsers, with the round trip;
`FrameBytes` ties both to the numbers of RFC 7540, byte by byte;
`Framer` is the writing object; `HeaderBlock` cuts header blocks into frames and reads them back through the order check.

**The HTTP/1 connection pool.** `Pool` is a state machine in which every section under a lock is one step: idle lists,
LRU, both wait queues, per-host counts, dials, and the race of delivery and cancellation. Connections and requests are
names, and two tables hold what the source keeps in their objects. `PoolInvariant`, `PoolSteps` and `PoolDelivery` prove
the invariant, `PoolTheorems` what holds over every run, `PoolOwnership` when a connection can be lost, `PoolReuse` when one is reused. `Transport` is
the object with its maps and loops, tied to the same sections; `WantConnQueue` is the two-stage queue on arrays, and
`PoolQueues` shows that it does there what the state machine's queues do.

**The parallel downloader.** `Download` has the segment loop, the ranges and the rounding of the ceiling,
`DownloadProtocol` the goroutines, the map and the lossy notifications, `DownloadMerge` the merge loops among them.

**Codecs.** `Chunked` and `ChunkedStream` are chunked transfer coding: a decoder of whole wires, the incremental reader
over any buffering, the writer; `ChunkedWires` is about wires as others write them. `Bisect` and `BisectPatterns` are the pattern compiler and the meaning of patterns,
`BisectAccepted` and `BisectDocumented` say exactly which strings compile and which of them are intended or
documented; `BisectMarkers` and `BisectIdentifiers` have the match markers. `HeaderSort` has the header ranks.

## What the code does not do

Some properties one would expect are false of the code. Each has a concrete run or input, and the exact condition under
which it does hold.

- A configured connection flow above 2^31-1-65535 leaves client and peer with different connection windows
  (`ConnWindowsAgreeExactlyWhen`). Up to 2^31-1 the WINDOW_UPDATE of the preface overflows the peer's window, and section
  6.9.1 of RFC 7540 has the peer end the connection. Above, the increment is refused, and the client's own window is
  negative, when it refuses no frame, or, from 2^32-65535 on, smaller than the peer's.
- A compliant peer is accused of FLOW_CONTROL_ERROR in some run exactly when the connection flow is in that last range and
  the announced SETTINGS_INITIAL_WINDOW_SIZE w0 is not 0, or when the windows of the connection agree at C, w0 is above
  S = 4 MiB and S - C - 4095 is less than both C and the frame limit: a stream's own window is fixed at S, and a closed
  body gives its bytes back to the connection only (`CompliantPeerAccused`, `PeerNeverAccusedExactlyWhen`, `CanAccuseIs`).
- A stream can stall with everything read exactly when the announced initial window is below 4096, because smaller
  refunds are withheld, and the preface leaves a connection on which its bytes can be read at all (`TinyWindowStalls`,
  `StreamsNeverStallExactlyWhen`).
- A second `Close` of a body refunds its unread bytes again, exactly when there are any; every further one does, until
  `inflow.add` panics (`SecondCloseBreaksTheBalance`, `ClosedWithUnread`).
- A SETTINGS value that overflows a stream's window is skipped for that stream, where section 6.9.2 of RFC 7540 asks for
  a connection error; the ledger of the stream then breaks (`SettingKeepsLedgerExactlyWhenTame`,
  `OverflowingSettingsBreaksTheLedger`). The stream can only send too little then (`NeverSendsMoreThanGranted`).
- A comment at `outflow.add` speaks of sums above 2^31-1 only; the code also refuses those below -2^31. The comment at
  `matchResult` speaks of the first condition that matches; the scan runs from the end and finds the last.
- A whole HEADERS payload can exceed the peer's frame limit when a priority is set (`HeadersPayloadFitsExactlyWhen`,
  `PayloadOverLimit`), and a SETTINGS frame the writer accepts can be one the reader refuses (`FrameRoundTrip`,
  `UnreadableSettings`).
- With an illegal priority the CONTINUATION frames of a header block are sent without their HEADERS frame
  (`WrittenWholeExactlyWhen`, `HeadlessBlockIsRefused`, `HeadlessBlock`).
- `CloseIdleConnections` between the moment a request skips an idle connection as too old and that connection's
  clean-up leaves the connection open, counted and held by nobody (`LosesNothingExactlyWhenCareful`,
  `ConnectionLostExample`).
- `ParallelDownload.Do` can wait forever once everything is merged, when a worker still waits to send a notification;
  some run does exactly when there are more segments than workers (`AlwaysReturnsExactlyWhen`).
- A chunk line without any digit ends a chunked body like a zero (`NoDigitsEndTheWire`).
- `CutMarker` is documented to find the first marker; behind a start that is no readable marker it reports none at all
  (`MissedExactlyWhen`, `MarkerMissed`).
- The pattern compiler accepts more than its documentation: exactly the strings with the prefix q, a repeated v or !, a
  hexadecimal set, or a y that voids digits of its set; only the last lies outside what comments in the code intend. It
  refuses documented strings with more than 64 bits in a set (`CompiledExactlyWhen`, `DocumentedExactlyWhen`,
  `AcceptsMoreThanDocumented`, `AcceptedIsWrittenExactlyWhen`, `VoidedDigit`, `TooManyBits`).

## Model

| member | source | states |
|---|---|---|
| Flow.RefundConserves | internal/http2/flow.go:26-53 | a refund keeps every byte of credit, raises the peer's window by exactly what it announces, and never leaves enough withheld to stall the peer; for a negative window too, as long as the withheld sum fits an int32 |
| Flow.Inflow.Add | internal/http2/flow.go:33-53 | `inflow.add` for every pair of int32 values: refuses (the panic) exactly a negative update or a window above 2^31-1, else the window becomes `Refund` of the old one and the announced increment is returned |
| Flow.Inflow.Take | internal/http2/flow.go:57-63 | takes exactly when the window covers it, compared as uint32 values, so that a negative window refuses no frame; else changes nothing |
| Flow.TakeInflows | internal/http2/flow.go:68-75 | takes from both windows or from neither |
| Flow.AcceptsExactlyTheSumsThatFit | internal/http2/flow.go:113-120 | the wrap-around test of `outflow.add` accepts exactly the sums an int32 can hold, at both ends |
| Flow.Outflow.Take | internal/http2/flow.go:101-109 | takes from the stream and the connection exactly when both cover it |
| Flow.Outflow.Add | internal/http2/flow.go:113-120 | adds exactly when the sum fits in 32 bits |
| DataBuffer.DataBuffer.Read | internal/http2/databuffer.go:80-103 | the bytes handed out are the front of the queue and leave it; the rest of the caller's buffer is untouched |
| DataBuffer.DataBuffer.Write | internal/http2/databuffer.go:118-136 | every byte is appended to the queue, across as many chunks as it takes |
| DataBuffer.DataBuffer.LastChunkOrAlloc | internal/http2/databuffer.go:138-149 | there is room in the last chunk afterwards, and the queue is unchanged; a chunk is added only if there was none, in the size class of the wanted length |
| DataBuffer.ChunkSizeIsSmallest | internal/http2/databuffer.go:13-44 | the class is the smallest that holds the wanted length, or the largest of all |
| DataBuffer.AfterRead | internal/http2/databuffer.go:80-110 | advancing the read position through the first chunk removes exactly those bytes from the front of the queue |
| DataBuffer.AfterFill | internal/http2/databuffer.go:118-136 | filling the last chunk appends exactly those bytes to the queue |
| DataBuffer.AllocatedButUnusedIsBounded | internal/http2/databuffer.go:31-44 | allocated but unused space stays below two of the largest chunks |
| Pipe.BalancedStep | internal/http2/pipe.go:35-159 | each critical section keeps: accepted bytes = delivered + `Len()`, delivered a prefix of accepted |
| Pipe.RunIsAQueue | internal/http2/pipe.go:35-159 | over every interleaving of writes, reads of any size, close and break, delivered is a prefix of accepted and `Len()` is exactly the difference, also after a break |
| Pipe.SetBufferKeepsTheBalanceExactlyWhenCareful | internal/http2/pipe.go:35-42 | installing a buffer keeps the balance exactly when the pipe is ended or holds nothing |
| Pipe.CloseErrorOnlyAfterDraining | internal/http2/pipe.go:55-78 | an unbroken pipe reports its closing error only after the last accepted byte was delivered |
| Pipe.ReadsNext | internal/http2/pipe.go:55-78 | what every read of a balanced pipe does: the break error; else the next accepted bytes, as many as there are and fit; else, drained, the closing error; only an open drained pipe parks |
| Pipe.WritesExactlyWhenOpen | internal/http2/pipe.go:87-104 | an open pipe with a buffer accepts every byte, an ended one none |
| Pipe.EndIsSticky | internal/http2/pipe.go:110-145 | after an end nothing more is accepted and the first error of each kind stays |
| Pipe.Pipe.SetBuffer | internal/http2/pipe.go:35-42 | the object changes as `AfterSetBuffer` |
| Pipe.Pipe.Len | internal/http2/pipe.go:44-51 | bytes buffered, or bytes that a break left unread |
| Pipe.Pipe.Read | internal/http2/pipe.go:55-78 | one pass of the loop: the outcome and the new state of `ReadResult` and `AfterRead`, the bytes in the caller's buffer |
| Pipe.Pipe.Write | internal/http2/pipe.go:87-104 | the outcome and the new state of `WriteResult` and `AfterWrite` |
| Pipe.Pipe.CloseWithError | internal/http2/pipe.go:110-145 | the first close wins |
| Pipe.Pipe.BreakWithError | internal/http2/pipe.go:115-145 | the first break wins, drops the buffer and counts its bytes as unread |
| Agreement.DataStep | internal/http2/transport.go:2830-2944 | one DATA frame moves its bytes from in flight to buffered or refunded and keeps the stream and connection ledgers |
| Agreement.BodyReadStep | internal/http2/transport.go:2738-2765 | a body read moves bytes from the pipe to "read but not refunded", or to "dropped" past the declared length |
| Agreement.ReadRefundStep | internal/http2/transport.go:2766-2788 | the refund of a read moves its bytes back to credit; it cannot overflow |
| Agreement.CloseRefundStep | internal/http2/transport.go:2799-2814 | the refund of a closed body moves its unread bytes back to the connection's credit |
| Agreement.StepKeeps | internal/http2/transport.go:2738-2944 | every step of the client, a compliant peer and the two FIFO channels keeps the whole accounting invariant |
| AgreementTheorems.WindowsAgree | internal/http2/transport.go:2830-2944 | in every reachable state, for every configured connection flow, the connection window and the peer's window plus DATA in flight plus WINDOW_UPDATE credit pending or in flight differ by what they differed at the start, so not at all when the configured sum fits in 31 bits; per stream the window is at least that when the announced initial window is at most 4 MiB |
| AgreementTheorems.CreditIsConserved | internal/http2/transport.go:2738-2828 | in every reachable state `avail + unsent +` unread `+` read but unrefunded bytes is the client's initial connection window less what over-length reads dropped |
| AgreementTheorems.NeverPanics | internal/http2/transport.go:2738-2828 | the overflow panic of `inflow.add` is unreachable, for every configured connection flow |
| Accusations.CompliantPeerAccused | internal/http2/transport.go:2799-2944 | whenever the condition of the next row holds, some run accuses a peer that stayed within its windows |
| Accusations.PeerNeverAccusedExactlyWhen | internal/http2/transport.go:2799-2944 | for every configuration: some run accuses a compliant peer exactly when the preface does not end the connection and either a byte may be sent at all and the client's own connection window is smaller than the one announced without being negative, or the stream window w0 is above S = 4 MiB and S - P - 4095 is below P and the frame limit, with P the announced connection window |
| Accusations.CanAccuseIs | internal/http2/transport.go:870-882 | the same condition in terms of what is configured: a connection flow of 2^32-65535 or more with w0 above 0, or one of at most 2^31-1-65535 with the condition on w0 and the frame limit |
| Accusations.AccusedForConnection | internal/http2/flow.go:68-75 | the run for the connection: one byte on each of as many streams as the client's own window has bytes, and one more |
| Accusations.SlotMoves | internal/http2/transport.go:2738-2944 | no step lets a served stream lose credit that is not held, dropped or returned to the connection |
| Accusations.Covered | internal/http2/transport.go:2896-2902 | outside that condition every frame that can arrive is covered by its stream's window |
| AgreementTheorems.ConnectionNeverStalls | internal/http2/flow.go:33-53 | the peer's connection window can be exhausted with nothing in flight only when bytes sit unread, never because credit is withheld; for every configured connection flow |
| AgreementTheorems.TinyWindowStalls | internal/http2/flow.go:33-53 | for every stream window below 4096 a run in which it is exhausted although everything was read, unless the preface ends the connection or the client's own connection window is 0 |
| AgreementTheorems.StreamsNeverStallExactlyWhen | internal/http2/flow.go:33-53 | for every configuration: streams never stall with everything read exactly when the announced initial window is at least 4096, or the preface ends the connection, or the client's own connection window is 0 and refuses the first byte |
| AgreementTheorems.SecondCloseBreaksTheBalance | internal/http2/transport.go:2792-2814 | after a body was closed, another refund of it keeps the balance exactly when nothing was unread |
| AgreementTheorems.ClosedWithUnread | internal/http2/transport.go:2792-2814 | a run that leaves n unread bytes in a closed body, after which m more closes leave the window m*n bytes above everything granted and panic exactly when that passes 2^31-1 |
| Deliveries.StepJoins | internal/http2/transport.go:2738-2944 | every step keeps: what was read from a stream and what its pipe holds is the front of the DATA payloads sent on it, and all but what is in flight while it is served and open |
| Deliveries.ReadsAreAPrefix | internal/http2/transport.go:2738-2944 | over every run, what the application reads from a stream is a prefix of the DATA payloads that the peer sent on it |
| Deliveries.NothingIsMissing | internal/http2/transport.go:2738-2960 | once END_STREAM has arrived on an open stream, what was read and what is buffered is all that was sent, unless more came than was declared |
| BodyReads.TruncationIsReportedExactlyWhen | internal/http2/transport.go:2738-2765 | over every run of client and compliant peer: a read of a body of declared length that meets the end reports UnexpectedEOF exactly when fewer bytes than declared were given, and none exactly when all were |
| BodyReads.OverlengthIsReportedExactlyWhen | internal/http2/transport.go:2738-2765 | over every run: a read reports too long a body exactly when the bytes given and those it brings pass the declared length, and the application has exactly the declared bytes then |
| BodyReads.UndeclaredIsNeverWrong | internal/http2/transport.go:2738-2765 | over every run, without a declared length no read reports a wrong one |
| BodyReads.StreamIsServed | internal/http2/transport.go:2830-2960 | over every run in which neither the application closes the body nor the connection ends the stream, the stream stays served: given, buffered and in flight together are what was sent |
| BodyReads.EndMeansAll | internal/http2/transport.go:2738-2960 | over those runs, a read that meets the end of the stream meets EOF, and everything sent was given |
| ClientConns.ClientStream.EndStream | internal/http2/transport.go:2946-2960 | END_STREAM closes the pipe once |
| ClientConns.ClientStream.AcceptData | internal/http2/transport.go:2884-2914 | bytes that were paid for go to the pipe or straight back to the connection, padding to both windows |
| ClientConns.ClientStream.ProcessData | internal/http2/transport.go:2866-2944 | the object's windows, pipe and flags change exactly as `OnData`, and the same increments are announced |
| ClientConns.ClientStream.BodyRead | internal/http2/transport.go:2738-2765 | a read of a body of declared length: the bytes of the pipe, no more than are left; `readErr` becomes UnexpectedEOF exactly when the end comes while bytes are left, the over-length error exactly when more came, and stays what it was after either; only what is returned without an error is refunded |
| ClientConns.ClientStream.RefundRead | internal/http2/transport.go:2766-2788 | both windows change as `OnReadRefund` |
| ClientConns.ClientStream.BodyClose | internal/http2/transport.go:2792-2814 | the pipe is broken and the unread bytes go back to the connection, as `OnCloseRefund` |
| ClientConns.ClientConn.constructor | internal/http2/transport.go:796-898 | the windows a new connection starts with, with the int32 addition of `inflow.init`; the last configured SETTINGS_MAX_FRAME_SIZE replaces 16384 |
| ClientConns.ConnWindowsAgreeExactlyWhen | internal/http2/transport.go:870-882 | client and peer start with the same connection window exactly when `ConnectionFlow` is at most 2^31-1-65535; up to 2^31-1 all of it is announced and the client's own window is negative, above nothing is announced and it is smaller than the 65535 the peer has |
| ClientConns.ClientConn.AddStreamLocked | internal/http2/transport.go:2280-2290 | a registered stream starts with the peer's initial window and draws on the connection's |
| ClientConns.ClientConn.ForgetStreamID | internal/http2/transport.go:2292-2296 | only the forgotten stream leaves the outbound windows |
| ClientConns.ClientConn.AdjustStreams | internal/http2/transport.go:3055-3058 | the loop over the streams moves every window by the difference, in any order, skipping sums that do not fit |
| ClientConns.ClientConn.ApplyInitialWindowSize | internal/http2/transport.go:3041-3062 | one SETTINGS_INITIAL_WINDOW_SIZE value changes the windows exactly as `OnSetting` |
| ClientConns.ClientConn.ProcessWindowUpdate | internal/http2/transport.go:3084-3112 | on the object's own fields: an update of the connection is counted exactly when the sum is at most 2^31-1, else a connection error; one of a stream is ignored exactly when the stream is unknown or aborted, else counted exactly when the sum fits, else a stream error |
| ClientConns.ClientConn.TakeCredit | internal/http2/transport.go:1939-1951 | one pass of `awaitFlowControl` takes min(stream, connection, request, frame limit) from both windows, or nothing when none is available |
| ClientConns.ClientConn.ProcessData | internal/http2/transport.go:2830-2944 | frames for a served stream as `OnData`, for any other as `OnDataUnknown` |
| Outbound.SettingKeepsLedgerExactlyWhenTame | internal/http2/transport.go:3041-3062 | SETTINGS keeps every stream window at grants less DATA exactly when no window passes 2^31-1 |
| Outbound.RunIsSound | internal/http2/transport.go:1920-1954 | over every run within section 6.9.2 of RFC 7540 each stream window is initial window plus updates less DATA, the connection's is 65535 plus updates less DATA and never negative |
| Outbound.NeverSendsMoreThanGranted | internal/http2/transport.go:1920-1954 | no run, whatever SETTINGS the peer sends, sends more than it granted, over the connection or on a stream; a stream's window is at most its grants less DATA |
| Outbound.StepIsBounded | internal/http2/transport.go:3041-3062 | a SETTINGS value that is skipped for a stream leaves its window too small, never too large; the connection's ledger stays exact |
| Outbound.EachSendIsCovered | internal/http2/transport.go:1939-1951 | each send takes at least one byte, at most the request and the frame limit, and is covered by both windows |
| Outbound.TakesAllItMay | internal/http2/transport.go:1939-1951 | the credit taken is the least of stream window, connection window, request and frame limit |
| Outbound.UpdateIsCountedExactlyWhen | internal/http2/transport.go:3084-3112 | a WINDOW_UPDATE is counted in full exactly when its sum fits 31 bits, else the error of its kind; ignored exactly for an unknown or aborted stream |
| Outbound.SettingTakesEffectExactlyWhen | internal/http2/transport.go:3025-3062 | an initial window above 2^31-1 is an error, any other takes effect and leaves connection and streams registered; a frame size takes effect |
| Outbound.OverflowingSettingsBreaksTheLedger | internal/http2/transport.go:3055-3062 | a run from the start, within section 6.9.2 of RFC 7540, after which one overflowing SETTINGS value is skipped for a stream but recorded for the connection |
| SendBody.Conn.AwaitFlowControl | internal/http2/transport.go:1920-1954 | whatever other streams and the peer do while it waits, every step keeps the ledger of `Outbound`; the credit taken is all that the request, the frame limit and both windows allow, and is recorded against the stream; it waits on only while a window is exhausted |
| SendBody.FrameScratchBufferLen | internal/http2/transport.go:1733-1750 | the least of frame limit, 512 KiB and one more than the declared length, and at least one byte |
| SendBody.WriteRequestBody | internal/http2/transport.go:1774-1914 | on success the DATA payloads are exactly the bytes read and END_STREAM is on the last frame only; BodyTooLong exactly when more was read than was declared; every other outcome has its event: a failing read, an ended stream, no credit, a failing write, bad trailers; without any the body is done; the DATA is exactly what the ledger records against the stream |
| SendBody.RecordedIsGranted | internal/http2/transport.go:1920-1954 | so a body never takes more than the largest initial window and what the peer granted its stream |
| SendBody.WriteChunk | internal/http2/transport.go:1852-1880 | the bytes of one read are sent in pieces that each use exactly the credit taken for them |
| Frames.RawRoundTrip | internal/http2/frame.go:240-252 | any frame of less than 2^24 bytes reads back with the reserved bit of its stream masked and leaves the tail |
| Frames.SettingsRoundTrip | internal/http2/frame.go:763-882 | a list of settings reads back identically |
| Frames.DataParses | internal/http2/frame.go:644-676 | a padded or unpadded DATA payload yields its data |
| Frames.HeadersParse | internal/http2/frame.go:1067-1107 | a HEADERS payload with any padding and priority yields its fragment, flags and priority |
| Frames.PushPromiseParses | internal/http2/frame.go:1320-1358 | a PUSH_PROMISE payload yields its promised stream and fragment |
| Frames.FrameRoundTrip | internal/http2/frame.go:515-573 | for every accepted call of the ten kinds of Write method the bytes followed by any tail read back as the same fields and leave the tail; a SETTINGS frame exactly when its first initial window is below 2^31 |
| Frames.UnreadableSettings | internal/http2/frame.go:763-790 | the SETTINGS frame with an initial window of 2^31 is written and then refused by the reader |
| FrameBytes.TypeOnTheWire | internal/http2/frame.go:23-50 | the fourth byte of every written frame is the type number of section 6 of RFC 7540 |
| FrameBytes.BigEndian | internal/http2/frame.go:399-407 | integers of two, three and four bytes are written most significant byte first |
| FrameBytes.PingBytes | internal/http2/frame.go:918-926 | both PING frames, byte by byte |
| FrameBytes.SettingsFrameBytes | internal/http2/frame.go:875-891 | the acknowledgement and a SETTINGS frame of one value, byte by byte |
| FrameBytes.WindowUpdateBytes | internal/http2/frame.go:1029-1037 | WINDOW_UPDATE and RST_STREAM frames, byte by byte |
| FrameBytes.GoAwayBytes | internal/http2/frame.go:963-969 | a GOAWAY frame, byte by byte |
| FrameBytes.PriorityFrameBytes | internal/http2/frame.go:1213-1228 | PRIORITY frames: the exclusive bit is the highest of the dependency |
| FrameBytes.DataBytes | internal/http2/frame.go:711-751 | DATA frames with END_STREAM and with padding, byte by byte |
| FrameBytes.HeadersBytes | internal/http2/frame.go:1144-1179 | HEADERS frames with each of the flags 1, 4, 8 and 32, byte by byte |
| FrameBytes.PushPromiseBytes | internal/http2/frame.go:1290-1411 | PUSH_PROMISE and CONTINUATION frames, byte by byte |
| FrameBytes.ParsesExactlyWhen | internal/http2/frame.go:644-1358 | a frame is accepted exactly when it is well formed by the rules of section 6 of RFC 7540: its stream, its length, its padding, a first initial window below 2^31, an increment that is not 0 |
| FrameBytes.RefusalsByRule | internal/http2/frame.go:644-1358 | the wrong kind of stream is a protocol error, a wrong length a frame size error, an increment of 0 an error of its stream or of the connection |
| FrameBytes.ReadsRawExactlyWhen | internal/http2/frame.go:240-545 | a frame is read exactly when its bytes are there and its length is within the limit, which is checked before the payload |
| Framing.Framer.EndWrite | internal/http2/frame.go:359-379 | hands over the finished frame in one piece, or refuses a payload of 2^24 bytes or more and writes nothing |
| Framing.Framer.WriteDataPadded | internal/http2/frame.go:711-751 | an illegal stream or padding is refused and writes nothing, else the whole frame is written |
| Framing.Framer.WriteSettings | internal/http2/frame.go:875-882 | the settings are written in order and in one piece; from 2^24 bytes on they are refused and nothing is written |
| Framing.Framer.WriteSettingsAck | internal/http2/frame.go:888-891 | an empty SETTINGS frame with the ACK flag is written in one piece; only a failing writer keeps a part |
| Framing.Framer.WritePing | internal/http2/frame.go:918-926 | the eight bytes and the ACK flag are written in one piece; only a failing writer keeps a part |
| Framing.Framer.WriteGoAway | internal/http2/frame.go:963-969 | writes exactly the frame of its call, the reserved bit of the stream masked |
| Framing.Framer.WriteWindowUpdate | internal/http2/frame.go:1029-1037 | an increment outside 1..2^31-1 is refused and writes nothing |
| Framing.Framer.WriteHeaders | internal/http2/frame.go:1144-1179 | an illegal stream or dependency is refused and writes nothing, else the whole frame is written |
| Framing.Framer.WritePriority | internal/http2/frame.go:1213-1228 | an illegal stream or dependency is refused and writes nothing, else the five bytes are written in one piece |
| Framing.Framer.WriteRSTStream | internal/http2/frame.go:1253-1260 | an illegal stream is refused and writes nothing, else the code is written in one piece |
| Framing.Framer.WriteContinuation | internal/http2/frame.go:1290-1301 | an illegal stream or a fragment of 2^24 bytes is refused and writes nothing, else the fragment is written in one piece |
| Framing.Framer.WritePushPromise | internal/http2/frame.go:1389-1411 | an illegal promised stream is refused and writes nothing, though the frame was begun |
| Framing.Framer.WriteRawFrame | internal/http2/frame.go:1415-1419 | any type, flags, stream and payload are written as given; a payload of 2^24 bytes is refused and writes nothing |
| HeaderBlock.FragmentsPartition | internal/http2/transport.go:1694-1703 | the pieces of a block are the block in order, none empty or over the limit, only the last may be short |
| HeaderBlock.WriteHeaderBlock | internal/http2/transport.go:1694-1718 | the loop writes exactly the accepted frames of one HEADERS and then CONTINUATIONs, END_HEADERS on the last only, for every priority and stream; on a failing connection a prefix of them |
| HeaderBlock.WrittenWholeExactlyWhen | internal/http2/transport.go:1694-1718 | the whole block is written exactly when its HEADERS frame is legal: stream, dependency, and 24 bits for the first piece with its priority |
| HeaderBlock.HeadlessBlockIsRefused | internal/http2/transport.go:1704-1718 | when only the priority is illegal and the block needs more than one frame, its CONTINUATIONs go out without a HEADERS frame, and every reader answers with a connection error |
| HeaderBlock.HeadlessBlock | internal/http2/transport.go:1704-1718 | a two-byte block with a dependency of 2^31 goes out without its first byte |
| HeaderBlock.HeadersPayloadFitsExactlyWhen | internal/http2/transport.go:1704-1710 | the whole HEADERS payload is within the limit exactly when there is no priority or five more bytes fit |
| HeaderBlock.PayloadOverLimit | internal/http2/transport.go:1704-1710 | a block of 16384 bytes with a priority makes a payload of 16389 bytes for a limit of 16384 |
| HeaderBlock.OrderIsContiguity | internal/http2/frame.go:587-621 | one variable accepts exactly the runs in which a CONTINUATION comes after an unfinished HEADERS or CONTINUATION of the same stream, and only there |
| HeaderBlock.FrameReader.CheckFrameOrder | internal/http2/frame.go:587-621 | the object's variable follows `CheckOrder`; a refused frame leaves it alone |
| HeaderBlock.FrameReader.ReadFrame | internal/http2/frame.go:515-545 | header, length limit, payload, parser and order check as `ReadOrdered` |
| HeaderBlock.FrameReader.ReadMetaFrame | internal/http2/frame.go:1610-1681 | the fragment loop feeds the decoder as `ReadFragments`, and each way to fail has its own error: too much, a malformed field, undecodable or unfinished, wrong pseudo-headers; its type assertion cannot fail |
| HeaderBlock.FragmentsReadBack | internal/http2/frame.go:1610-1655 | written continuations are fed one by one until END_HEADERS |
| HeaderBlock.BlockRoundTrip | internal/http2/transport.go:1694-1718 | for every non-empty block and limit, reading the written frames and any tail feeds the decoder exactly the block, leaves the tail and no block open, for every decoder that takes the pieces; else the read fails with the first objection |
| HeaderBlock.TakenExactlyWhen | internal/http2/frame.go:1610-1681 | a block is taken exactly when every piece is at most twice as long as what remains, follows no malformed field and decodes, and the whole is complete, well formed and has the pseudo-header fields of a response |
| HeaderBlock.RefusedAt | internal/http2/frame.go:1622-1643 | the first unwelcome piece ends the connection: a protocol error when it is too long or follows a malformed field, else a compression error |
| HeaderBlock.RefusedAtEnd | internal/http2/frame.go:1660-1681 | an unfinished block ends the connection, a malformed field or wrong pseudo-header fields end the stream |
| Pool.PutLocked | transport.go:1580-1654 | closes connections at most, answers each request once, and bounds the LRU |
| PoolInvariant.PutGoesToOnePlace | transport.go:1580-1654 | a returned connection goes to the first request that waits for one; else it is refused exactly when idle connections are being closed or its list is full; else it is the newest idle one, except that a negative `MaxIdleConns` evicts it at once when no other is idle |
| PoolInvariant.DecKeeps | transport.go:2134-2180 | giving back a slot keeps the invariant; its panic is unreachable |
| PoolInvariant.CloseKeeps | transport.go:3831-3849 | closing a connection, or closing it again, keeps the invariant |
| PoolInvariant.ReceiveKeeps | transport.go:2024-2055 | taking the result keeps the invariant |
| PoolSteps.CancelKeeps | transport.go:1868-1885 | cancelling a request, with or without a delivered result, keeps the invariant |
| PoolSteps.DialBeginKeeps | transport.go:2111-2117 | the beginning of a dial, for a request that waits or is done, keeps the invariant |
| PoolSteps.DialDeliverKeeps | transport.go:2119-2126 | what becomes of a dialled connection keeps the invariant, whether its request still waits or not |
| PoolSteps.DialFailedKeeps | transport.go:2119-2129 | a failed dial keeps the invariant, whether its request still waits or not |
| PoolSteps.RemoveKeeps | transport.go:1753-1783 | removing an idle connection keeps the invariant |
| PoolSteps.ReapKeeps | transport.go:2848-2858 | the idle timeout and the clean-up of a connection keep the invariant, idle or not |
| PoolSteps.CloseIdleKeeps | transport.go:1457-1470 | taking all idle connections keeps the invariant |
| PoolDelivery.QueueDialKeeps | transport.go:2066-2093 | dialling at once or parking keeps the invariant: nobody is parked beside a free slot |
| PoolDelivery.GetConnKeeps | transport.go:1659-1743 | serving a request from the idle list, or registering it, keeps the invariant |
| PoolDelivery.PutIdleKeeps | transport.go:1563-1654 | delivering, storing, refusing or evicting keeps the invariant |
| PoolTheorems.RunKeepsInvariant | transport.go:1457-2180 | every run of the pool, whatever the interleaving, keeps the whole invariant |
| PoolTheorems.OneHolder | transport.go:1847-1885 | no connection ever has two holders among result channels, idle lists, users, and goroutines that return, close or clean up |
| PoolTheorems.SlotsAreExact | transport.go:2066-2180 | the count of a host is exactly its dials in progress plus its open connections, at most the maximum; a request parked for a slot means that all are taken |
| PoolTheorems.NeverPanics | transport.go:2134-2146 | the duplicate, already-in-LRU and underflow panics are unreachable |
| PoolTheorems.IndexesAlwaysAgree | transport.go:1625-1783 | idle lists and LRU agree, without duplicates, within both limits; an LRU entry in no list is closed or about to be cleaned up |
| PoolTheorems.NoRequestForgotten | transport.go:1988-2093 | a waiting request always has a dial due, under way or queued; queued, all slots of its host are held; it is not parked beside an idle connection of its key |
| PoolTheorems.OneResult | transport.go:1847-1864 | once answered, a request has that answer or none, whatever follows |
| PoolOwnership.StepKeepsHeld | transport.go:1847-1885 | every step keeps a holder for every open connection, except `CloseIdleConnections` for those that only await clean-up |
| PoolOwnership.LosesNothingExactlyWhenCareful | transport.go:1457-1470 | a run loses no open connection exactly when each `CloseIdleConnections` comes while none only awaits clean-up |
| PoolOwnership.ConnectionLostExample | transport.go:1457-1470 | a concrete run after which an open connection has no holder, takes the only slot of its host, and a request waits for that slot |
| PoolReuse.ServedAtOnceExactlyWhen | transport.go:1659-1743 | a new request has a connection at once exactly when keep-alives are on and a connection of its host's list is open and not idle for too long |
| PoolReuse.NewestIsServed | transport.go:1689-1732 | it is the most recently used of those; it leaves the list with everything newer, and the LRU |
| PoolReuse.QueuedOtherwise | transport.go:1735-1741 | otherwise the list is empty afterwards and the request stands last in its host's queue, behind all that still wait |
| PoolReuse.ReusedExactlyWhen | transport.go:1563-1743 | from every state of the invariant: the next request gets the very connection that a request just gave back exactly when keep-alives and limits let its host keep one, idle connections are not being closed, its list has room, and nobody waits |
| PoolReuse.DialsAnswer | transport.go:2111-2131 | a dialled connection goes to its request if that still waits, else back to the pool; a failure is reported to a waiting request |
| PoolReuse.AnswersAreUsed | transport.go:1868-1885 | a request uses the connection it was given, or gives it back when it is cancelled |
| PoolReuse.NotKeptIsClosed | transport.go:3831-3849 | what cannot be used again is closed |
| PoolReuse.IdleTooLongIsClosed | transport.go:2848-2858 | a connection idle for too long is closed and leaves both indexes; one that was taken meanwhile is left alone |
| PoolReuse.CloseIdleTakesAll | transport.go:1457-1470 | no connection stays idle: each is about to be closed |
| Transport.Transport.TryDeliver | transport.go:1847-1864 | delivers exactly when the request still waits |
| Transport.Transport.CleanFrontNotWaiting | transport.go:1942-1951 | drops exactly the longest prefix of requests that wait no more |
| Transport.Transport.DecConnsPerHost | transport.go:2134-2180 | the loop and the count change the object exactly as `Dec` |
| Transport.Transport.CloseLocked | transport.go:3831-3849 | the object changes exactly as `CloseConn` |
| Transport.Transport.QueueForDial | transport.go:2066-2093 | the object changes exactly as the section of the state machine |
| Transport.Transport.RemoveFromLRU | transport.go:4042-4047 | the entry leaves, the order of the others stays |
| Transport.Transport.RemoveIdleConnLocked | transport.go:1753-1783 | the object changes as `RemoveIdle`, and the result says whether the list held the connection |
| Transport.Transport.CloseConnIfStillIdle | transport.go:2848-2858 | the object changes as `Reap` |
| Transport.Transport.SearchIdleList | transport.go:1689-1732 | the search from the most recently used end finds the first usable connection, launches clean-ups for those too old, and delivers |
| Transport.Transport.QueueForIdleConn | transport.go:1659-1743 | the object changes and answers exactly as `QueueForIdle` |
| Transport.Transport.CloseIdleConnections | transport.go:1457-1468 | the object changes as `CloseIdle` |
| Transport.Transport.TryPutIdleConn | transport.go:1563-1654 | refused without change when keep-alives are off or the connection is broken, else exactly as `PutLocked` |
| Transport.Transport.DeliverToWaiting | transport.go:1587-1602 | pops requests until one takes the connection |
| Transport.Transport.EvictOldest | transport.go:1636-1640 | the object changes as `Evict` |
| PoolQueues.DropDoneIs | transport.go:1942-1951 | the longest prefix that waits no more is the same for the two-stage queue and for the queue of the state machine |
| PoolQueues.Enqueue | transport.go:1739-1740 | cleaning and pushing on the two-stage queue does to its contents what the state machine does to its queue |
| PoolQueues.NextWaiting | transport.go:2153-2160 | popping until a request waits takes the one the state machine serves and leaves the same rest |
| WantConnQueues.LeadingFalseIs | transport.go:1942-1962 | the longest failing prefix of a queue is unique, so a cleaning loop has no choice |
| WantConnQueues.WantConnQueue.Len | transport.go:1905-1907 | the number of queued requests |
| WantConnQueues.WantConnQueue.PushBack | transport.go:1910-1912 | appends to the FIFO contents, reusing the tail's capacity or growing it |
| WantConnQueues.WantConnQueue.PopFront | transport.go:1915-1927 | removes the first of the FIFO contents, also across the swap that makes the old head's storage the new tail |
| WantConnQueues.WantConnQueue.PeekFront | transport.go:1930-1938 | the first of the contents, changing nothing |
| WantConnQueues.WantConnQueue.CleanFrontNotWaiting | transport.go:1942-1951 | removes exactly the longest prefix that waits no more, and says whether it removed any |
| WantConnQueues.WantConnQueue.CleanFrontCanceled | transport.go:1954-1962 | removes exactly the longest prefix whose dials cannot be canceled any more |
| WantConnQueues.WantConnQueue.All | transport.go:1966-1973 | visits the contents in order |
| Download.MakeTasks | parallel_download.go:309-331 | the loop hands out consecutive ranges from the first byte to the last, as many as the ceiling says |
| Download.PiecesPartition | parallel_download.go:309-331 | the ranges partition the content: each continues exactly where the previous ended |
| Download.CeilingSurvivesRounding | parallel_download.go:302 | the float64 ceiling is the exact number of segments for all lengths below 2^53 and all segment sizes, rounded ones included |
| DownloadProtocol.StepKeeps | parallel_download.go:41-111 | every step of workers, merge and main loop keeps the protocol's invariant |
| DownloadProtocol.SuccessMeansAllBytes | parallel_download.go:283-352 | `Do` returns nil only if the output is exactly the content, for every interleaving and failure |
| DownloadProtocol.ReturnsNilExactlyWhenSmooth | parallel_download.go:283-352 | for every run in which `Do` has returned: it returned nil exactly when no step before failed, and the output is exactly the content then |
| DownloadProtocol.CanSucceed | parallel_download.go:283-352 | every configuration has a run in which `Do` returns nil with the whole content written |
| DownloadProtocol.MergeIsInOrder | parallel_download.go:245-279 | until something fails the output is a prefix of the content |
| DownloadProtocol.NoLostWakeUp | parallel_download.go:41-72 | while the merge listens for a segment that was handed out, a worker has it or its notification is in the channel or being sent |
| DownloadProtocol.StuckIffHangs | parallel_download.go:41-49 | the only stuck states are those in which everything is merged and a worker waits to send a notification that nobody reads |
| DownloadProtocol.StepsRunOut | parallel_download.go:234-352 | every step uses up a measure, so every run ends |
| DownloadProtocol.FewSegmentsNeverHang | parallel_download.go:41-49 | with no more segments than workers no reachable state is stuck |
| DownloadProtocol.ManySegmentsCanHang | parallel_download.go:41-49 | with more segments than workers some run reaches a stuck state |
| DownloadProtocol.AlwaysReturnsExactlyWhen | parallel_download.go:283-352 | `Do` returns in every run exactly when there are no more segments than workers |
| DownloadMerge.Merger.PopTask | parallel_download.go:51-72 | the loop returns the segment asked for or ends because everything stopped; all it does is a run of the protocol |
| DownloadMerge.Merger.MergeFile | parallel_download.go:245-279 | a merge that ends without a stop has written the whole content |
| Chunked.ParseHexUint | internal/chunked.go:244-263 | the value of up to 16 digits, below 2^64; else the first of a bad byte or the seventeenth digit |
| Chunked.TrimTrailingWhitespace | internal/chunked.go:152-157 | the longest front that does not end in white space |
| Chunked.HexOfValue | internal/chunked.go:211 | the printed digits denote the number |
| Chunked.ChunkLineReads | internal/chunked.go:129-150 | a line of digits reads back and leaves the rest exactly when it fits into the buffer, else the line is too long |
| Chunked.ChunkReads | internal/chunked.go:71-123 | one written chunk in front of a wire decodes to its data in front of the rest exactly when its line fits |
| Chunked.RoundTrip | internal/chunked.go:71-233 | for every sequence of writes, every tail and every buffer the wire decodes to the concatenation, then the end, consumed exactly through the final chunk, exactly when the line of each chunk fits into the buffer |
| Chunked.SmallestBufferFits | internal/chunked.go:129-150 | with 16 bytes, the least a buffered reader has, every chunk below 2^56 bytes fits |
| ChunkedWires.CaseDoesNotMatter | internal/chunked.go:244-263 | the digits of a size mean the same in either case |
| ChunkedWires.DenotesIs | internal/chunked.go:244-263 | a size of at most 16 digits, in any mixture of cases and with leading zeros, reads as its number |
| ChunkedWires.EssenceIsSize | internal/chunked.go:152-184 | white space and chunk extensions behind the digits do not count |
| ChunkedWires.SizeLineReads | internal/chunked.go:129-184 | such a line reads as its number exactly when it fits the buffer and the limit on lines |
| ChunkedWires.AnyWireDecodes | internal/chunked.go:71-184 | every wire of such lines decodes to its data, consumed exactly through the line that ends it |
| ChunkedWires.CutIsReported | internal/chunked.go:71-150 | a wire that is cut short anywhere ends in UnexpectedEOF after a front of its data |
| ChunkedWires.WrongEndIsReported | internal/chunked.go:73-91 | anything but CR LF behind a chunk is an error, after its data |
| ChunkedWires.WrongSizeIsReported | internal/chunked.go:244-263 | a line is refused for a bad byte exactly when one is among its first 17, and for its length exactly when those are all digits |
| ChunkedWires.NoDigitsEndTheWire | internal/chunked.go:46-60 | a line without digits ends the wire like a zero, where RFC 7230 asks for one |
| ChunkedStream.Bufio.ReadSlice | internal/chunked.go:130-140 | a line, or the reason why there is none: end of the wire or full buffer |
| ChunkedStream.ReadChunkLine | internal/chunked.go:129-150 | the next chunk line as `ChunkLine` |
| ChunkedStream.ChunkedReader.BeginChunk | internal/chunked.go:46-60 | reading a size does not change what is still to be decoded |
| ChunkedStream.ChunkedReader.CheckChunkEnd | internal/chunked.go:73-91 | checking the two bytes after a chunk does not change what is still to be decoded |
| ChunkedStream.ChunkedReader.ReadData | internal/chunked.go:105-120 | one read of data takes the front of what is still to be decoded |
| ChunkedStream.ChunkedReader.Read | internal/chunked.go:71-123 | for every buffering and every size, what is returned is the next part of what the decoder of whole wires yields; an error exactly at its end; progress whenever something is asked for |
| ChunkedStream.ReadToEnd | internal/chunked.go:71-123 | all reads together yield exactly the decoded data and end, the wire left right behind the final chunk |
| ChunkedStream.ChunkedWriter.Write | internal/chunked.go:204-228 | one chunk, nothing for no data; on a failing writer a prefix of it |
| ChunkedStream.ChunkedWriter.Close | internal/chunked.go:230-233 | the final chunk; on a failing writer a prefix of it |
| ChunkedStream.WriteAll | internal/chunked.go:204-233 | all writes and the close make up the encoding |
| ChunkedStream.Transfer | internal/chunked.go:71-233 | writer and reader together: whatever is written comes back, for every buffer size, buffering, read size and tail; only a write of 2^56 bytes or more can have too long a line |
| Bisect.New | internal/bisect/bisect.go:194-305 | the prefix loops yield the matcher of `Compile` |
| Bisect.ParseExpression | internal/bisect/bisect.go:238-304 | the loop collects the conditions of `ScanFrom` |
| Bisect.MatchResult | internal/bisect/bisect.go:365-373 | the backward loop returns the result of the last condition that matches, false when none does |
| BisectPatterns.EndsInByMask | internal/bisect/bisect.go:332-338 | ending in certain bits is what `id & mask == bits` tests, the mask being `uint64(1)<<n - 1` for any n up to 64 |
| BisectPatterns.AndModulo | internal/bisect/bisect.go:365-373 | masking the last n bits is taking the remainder modulo 2^n |
| BisectPatterns.LastMatchIsEvaluation | internal/bisect/bisect.go:365-373 | the last-match-wins scan equals left-to-right evaluation of the set expression on every identifier |
| BisectPatterns.BangsCompile | internal/bisect/bisect.go:222-230 | any number of leading ! inverts by parity |
| BisectPatterns.VsCompile | internal/bisect/bisect.go:212-220 | any number of leading v sets verbose and clears quiet |
| BisectPatterns.SuffixScans | internal/bisect/bisect.go:243-303 | a written set and its operator add exactly the condition of the set |
| BisectPatterns.TermsScan | internal/bisect/bisect.go:243-303 | a written expression adds one condition for each term, in order |
| BisectPatterns.PatternCompiles | internal/bisect/bisect.go:109-305 | every pattern of the intended syntax, which is the documented one with hexadecimal sets, q and repeated prefixes, compiles, with the flags of its prefixes |
| BisectPatterns.CompilationPreservesMeaning | internal/bisect/bisect.go:109-147 | for every such pattern and every identifier the matcher selects, enables and prints what the set expression says |
| BisectAccepted.SetScans | internal/bisect/bisect.go:238-303 | the loop over the characters takes one set and the operator behind it exactly when the set is a digit string, with or without voiding ys, of at most 64 bits, and the operator in order |
| BisectAccepted.CompiledExactlyWhen | internal/bisect/bisect.go:194-305 | for every string: it compiles exactly when, behind q, vs and !s, it is n or accepted sets with the + operators before the - operators; with which flags and conditions |
| BisectAccepted.SetMeans | internal/bisect/bisect.go:260-297 | the condition of an accepted set selects what the set says: voided digits count as zeros, a set that starts with y is everything or, with digits left, nothing |
| BisectAccepted.AcceptedMeaning | internal/bisect/bisect.go:194-373 | every accepted string selects the left-to-right evaluation of its sets |
| BisectDocumented.DocumentedExactlyWhen | internal/bisect/bisect.go:109-147 | a string is a pattern of the documented syntax exactly when each of its sets is y or a string of bits, the + operators before the - operators, with at most one v and then at most one ! in front; or n instead of the sets |
| BisectDocumented.AcceptsMoreThanDocumented | internal/bisect/bisect.go:109-305 | the strings that compile without being documented are exactly the accepted ones with q, a repeated prefix, a hexadecimal set, or a y among other marks; the documented strings that do not compile are exactly those with a set of more than 64 bits |
| BisectDocumented.AcceptedIsWrittenExactlyWhen | internal/bisect/bisect.go:238-303 | an accepted string is of the intended syntax exactly when every y in it is a set of its own |
| BisectDocumented.TooManyBits | internal/bisect/bisect.go:278-281 | 65 zeros are a documented pattern that is refused |
| BisectDocumented.VoidedDigit | internal/bisect/bisect.go:268-272 | "1y" is no pattern of the intended syntax either, yet it compiles, to the identifiers that end in 00 |
| BisectMarkers.AppendMarker | internal/bisect/bisect.go:539-549 | shifting the word four bits at a time writes the 16 digits of the identifier |
| BisectMarkers.CutMarker | internal/bisect/bisect.go:556-623 | the loops find, read and cut out what `Cut` says: the first start, up to the first bracket, with at most one space |
| BisectMarkers.ParseIdentifier | internal/bisect/bisect.go:579-610 | the hexadecimal or binary identifier, with the limits on its digits |
| BisectMarkers.MarkerRoundTrip | internal/bisect/bisect.go:534-623 | a written marker comes back with its identifier from any line in which none starts before it |
| BisectMarkers.MissedExactlyWhen | internal/bisect/bisect.go:551-577 | behind another start a written marker goes unreported exactly when that start is no readable marker |
| BisectMarkers.MarkerMissed | internal/bisect/bisect.go:551-577 | any marker behind "[bisect-match ] " goes unreported |
| BisectMarkers.JoinedIs | internal/bisect/bisect.go:611-623 | exactly one space goes with the marker: the one before it, or else the one behind it |
| BisectIdentifiers.DigitsAre | internal/bisect/bisect.go:585-596 | the sixteen digits and their values, in either case |
| BisectIdentifiers.AnyIdentifierReads | internal/bisect/bisect.go:579-610 | any digits of at most 64 bits, binary or hexadecimal, read as the smallest number that ends in their bits, as in a pattern |
| BisectIdentifiers.AnyMarkerReads | internal/bisect/bisect.go:551-623 | a marker with any such identifier is found, read and cut out of any line in which none starts before it |
| HeaderSort.CanonicalMIMEHeaderKey | textproto_reader.go:380-425 | the loop with its flag computes the canonical form |
| HeaderSort.EqualFold | internal/ascii/print.go:14-24 | equality up to ASCII case |
| HeaderSort.TokenBytes | textproto_reader.go:358-367 | the bytes of a valid name are the visible ones that are no delimiter (section 3.2.6 of RFC 7230) |
| HeaderSort.CanonicalExactlyWhen | textproto_reader.go:380-425 | the canonical form of a valid name, and nothing else, differs from it in case only, with no small letter at the start of a word and no capital inside one; an invalid name is its own |
| HeaderSort.EqualCanonicalForms | internal/header/sort.go:84-96 | canonical forms are equal exactly when the names are the same, or differ in case only and are valid |
| HeaderSort.CanonicalHeaderKeyEqual | internal/header/sort.go:91-96 | the comparison without allocation is equality of canonical forms, for valid and invalid names |
| HeaderSort.RankIsLastMatch | internal/header/sort.go:71-82 | the rank is the last matching position |
| HeaderSort.HeaderOrderRanksLinear | internal/header/sort.go:71-82 | the nested scan computes `Ranks` |
| HeaderSort.HeaderOrderRanksMap | internal/header/sort.go:103-127 | the map path computes the same `Ranks` |
| HeaderSort.Sorter.Swap | internal/header/sort.go:34-37 | swaps headers and ranks together, in place |
| HeaderSort.Sorter.Less | internal/header/sort.go:38-46 | compares ranks, or positions where there is none |
| HeaderSort.SwapKeeps | internal/header/sort.go:34-37 | a swap keeps every rank with its header and loses none |
| HeaderSort.Sort | internal/header/sort.go:63 | any run of comparisons and swaps that ends with no neighbours the wrong way round keeps ranks attached, permutes the headers, and leaves them in order when all are ranked; any other goes on |
| HeaderSort.NoInversionIsOrder | internal/header/sort.go:38-63 | ranked headers are in order as soon as no neighbours are the wrong way round by `Less` |
| HeaderSort.SortKeyValues | internal/header/sort.go:52-64 | the headers are permuted, left alone when there is nothing to order, and in the order asked for when every header has a rank |

## Left out

- HTTP/2 streams: RST_STREAM, GOAWAY, PING, 1xx responses, retries, request concurrency limits and `streamsReserved`; they move no flow-control credit.
- Integers: windows are int32 with the wrap-around of `outflow.add` and `inflow.init` written out; byte totals over whole runs are unbounded.
- TwoParty: the peer ignores SETTINGS other than the initial window, and DATA that violates the protocol is outside its steps; the object methods in `ClientConn` cover it.
- Over-length reads: bytes beyond the declared Content-Length are counted as dropped, as the code never refunds them.
- Over-length reads: the stream is also aborted in the source; here the abort is a step of its own.
- SendBody.WriteRequestBody: the body ends or fails after finitely many reads, and a wait for credit may end as "blocked"; pooled buffers are a length only.
- HeaderBlock.FrameReader.ReadMetaFrame: the HPACK decoder and the checks of its fields are an arbitrary function of the bytes fed so far; `AllowIllegalReads` and `AllowIllegalWrites` are off.
- Framer: bufio between the framer and the connection is transparent; a failed connection keeps a prefix of what was written.
- Pool: HTTP/2 entries, proxies, trace hooks and `dialsInProgress` (which only cancels dial contexts); idle age is a choice of each step; an idle timer may fire at any time while timeouts are on.
- Transport: connections and requests are names with two tables instead of objects with their own mutexes, so aliasing between objects is not modelled; its wait queues are sequences of names, which `PoolQueues` ties to the queue objects; the locks appear as atomic methods.
- Transport.CloseIdleConnections: the closing of the connections it took is a separate step for each.
- HeaderSort.Sort: that the standard library's sort ends in order is its promise; a run that does not is continued by insertion. With headers that have no rank no order of the result is claimed, since `Less` then compares ranks with positions.
- Downloader: range replies are exact or errors, temporary files keep what was written, and HEAD, logging and the choice of the output file are one failing step.
- Chunked reader: an underlying reader that returns no bytes and no error forever is left out; the flush after each chunk changes no byte.
- Bisect: hashing, deduplication and printing of locations (`Hash`, `Stack`, `FileLine`), which only supply identifiers or print them.
- Sockets, TLS, QUIC, dump hooks, builders and setters: I/O or thin wrappers.
