# Lager client: verified core

A model of the parts of the Lager Rust client that are state machines and
codecs, with proofs about them. `dafny verify dfyconfig.toml` checks the whole
project.

| file | models |
|---|---|
| `Bytes.dfy` | bytes, options, substring search |
| `ChunkedSpec.dfy`, `SizeLines.dfy`, `ChunkedGrammar.dfy`, `ChunkedFaults.dfy` | what a chunked body means, what a size line is, the grammar a clean body must print from, and the breaches of it that the others have |
| `ChunkedReader.dfy`, `AsyncBody.dfy`, `ChunkedAgreement.dfy` | the blocking and the poll-driven decoder, and when they agree |
| `Multipart.dfy`, `MultipartParser.dfy` | the multipart encoder with its boundary search, and a reader for what it writes |
| `Session.dfy` | UART and RTT sessions over event queues |
| `TokenStore.dfy`, `GatewayProtocol.dfy`, `GatewayRuns.dfy` | the token store, the credential protocol as a machine of calls on one client, and what holds in every interleaving of them |
| `GatewayAlone.dfy`, `Gateway.dfy` | what calls come to when they do not overlap, as a function of clock, auth servers and gateway, and the client code that computes it |
| `GatewayRaces.dfy` | where the protocol falls short |
| `ResponseHead.dfy`, `HeaderFields.dfy`, `Tunnel.dfy`, `RttStream.dfy` | response heads and what their fields say, the CONNECT tunnel with its retries, and the async RTT stream |
| `Lscp.dfy`, `ScopeStream.dfy` | LSCP/1 frames, one-shot captures and the credit-paced stream |
| `Base64.dfy` | one base64 encoder and two decoders, in their own bit arithmetic |

Loops and objects of the source are methods and classes here; the functions
they are proved against say what their results mean. Sockets, clocks, auth
servers and gateways are scripts: any sequence of short reads, pending polls,
clock readings, answers and failures.

Where a natural claim is false of the code, the exact condition is proved:

- The two chunked decoders do not agree on every stream. Under all splits and
  all placements of pending polls they agree on exactly the streams that are
  `ChunkedSpec.Agreeable` for the capacity of the async decoder's buffer, 8 KiB
  as the client makes it; on any other stream there is a split under which they
  differ (`ChunkedAgreement.Compare`). The blocking decoder stops at a line of
  1026 bytes; the async one may return a line whose LF is in the fill after its
  first 1025 bytes, and an unterminated last line of 1025 bytes is
  `InvalidData` for one and `UnexpectedEof` for the other. Section 7.1 of RFC
  9112 has no such limit. Streams with short lines always agree, and so does
  every stream that decodes cleanly.
- Names and file names of multipart parts are quoted; content types are not. A
  body reads back exactly when no content type has a line break in it.
- A size line may start with a plus sign, as may a status and a content length,
  because Rust's integer parsers allow it. `SizeLines.ParseSizeExactly` says
  what a size line is.
- A refresh may return the token that was just rejected
  (`GatewayRaces.RejectedTokenAgain`). A retry sends the rejected token again
  exactly when the stored one is of no use at the clock reading and the auth
  server gives that token (`GatewayAlone.SameTokenExactly`).
- Each update of the store loads and saves the whole file. In any run, two
  updates are both still there exactly when their loads and saves do not overlap
  or the one saved last covers the other (`GatewayRaces.RaceExactly`); two calls
  on one client can lose a refresh that way (`GatewayRaces.LostRefresh`). Calls
  that do not overlap lose none (`GatewayAlone.CallsConserve`).
- A capture that arrives before the subscription is confirmed, does not decode,
  or fails to be credited never gives its credit back. With a daemon that sends
  only against credit the stream is stuck exactly after four of them
  (`ScopeStream.SubscriptionStuckExactly`, `ScopeStream.StuckSubscription`).
- The boundary counter of the encoder is 32 bits wide. It cannot run out for
  parts of less than 2^32 / 10 bytes in all.
- A response head for the async RTT stream may be one byte longer than one for a
  tunnel, because it is read a line at a time.

## Model

| member | source | states |
|---|---|---|
| Bytes.Search | src/nets/sio.rs:41-45 | the windows search finds the first occurrence, and finds none exactly when there is none |
| ChunkedSpec.AgreeableExactly | src/chunked.rs:64-84 | the streams on which the blocking rule for long lines and the most lenient one for a buffer of that capacity decode alike are exactly the agreeable ones |
| ChunkedSpec.LineAgreesExactly | src/chunked.rs:207-231 | the two line rules answer alike exactly when the first line ends within 1026 bytes, or is too long for both, or is unterminated and not 1025 bytes long |
| ChunkedSpec.EndlessExactly | src/chunked.rs:336-341 | the trailer sections that fail as too long even in the async decoder are those without a blank line before a line too long for both or never ended |
| ChunkedSpec.CleanIsAgreeable | src/chunked.rs:13-14 | a stream that the blocking decoder ends cleanly is decoded alike by both |
| ChunkedSpec.ShortLinesAgree | src/chunked.rs:66-78 | streams whose framing lines fit in 1026 bytes, and whose unterminated tail has at most 1024, are decoded alike |
| ChunkedSpec.UnterminatedTailDisagrees | src/chunked.rs:228-230 | an unterminated last line of 1025 bytes is InvalidData for one decoder and UnexpectedEof for the other |
| ChunkedSpec.DataStep | src/chunked.rs:124-137 | payload handed out in pieces adds up to the chunk, whatever the pieces |
| ChunkedGrammar.DecodePrinted | src/chunked.rs:103-144 | chunks and an ending printed in the grammar decode to exactly their payload and a clean end |
| ChunkedGrammar.CleanParses | src/chunked.rs:103-144 | a clean end means that the stream parses into size lines, that many bytes, blank lines and a proper ending, with that payload |
| ChunkedGrammar.CleanExactlyGrammar | src/chunked.rs:43-47 | a stream decodes cleanly to a payload if and only if it is printed from chunks with that payload, size lines being white space, an optional plus, hex digits, white space and an extension |
| ChunkedGrammar.SizeLineParses | src/chunked.rs:148-156 | those are the size lines that the decoder accepts, within the length limit |
| ChunkedGrammar.CloseInsideSizeLine | src/chunked.rs:72-77 | a size line cut anywhere fails, with UnexpectedEof up to 1024 bytes and InvalidData at 1025 |
| SizeLines.ParseSizeExactly | src/chunked.rs:148-156 | a line parses as a size if and only if it is white space, an optional plus, hex digits worth that number below 2^64, white space, and nothing or a semicolon and anything |
| SizeLines.SpaceExactly | src/chunked.rs:148-156 | what a trim removes is the UTF-8 form of a code point of white space |
| ChunkedGrammar.CloseInsideChunk | src/chunked.rs:126-129 | a stream cut anywhere inside a chunk, its size line included, fails with UnexpectedEof after the bytes that arrived, but for a size line cut at 1025 bytes, which is InvalidData |
| ChunkedFaults.FaultExactly | src/chunked.rs:64-144 | a stream fails with a fault after a payload if and only if it is whole chunks and one breach that delivers the rest of the payload and calls for that fault: a line over 1026 bytes or cut off, a line that is no size, data cut short, or data not followed by a blank line |
| ChunkedFaults.BreachDecodes | src/chunked.rs:64-144 | each breach decodes to what it delivers and its fault |
| ChunkedGrammar.SizeRoundTrip | src/chunked.rs:150-156 | a size below 2^64 in hex of either case, with any extension, parses back |
| ChunkedGrammar.SizeLineReads | src/chunked.rs:111-123 | a printed size line of at most 1026 bytes reads as its size |
| ChunkedGrammar.RoundTrip | src/chunked.rs:98-156 | any payloads below 2^64 bytes, printed in any style with any trailers and anything after the end, decode to their concatenation and a clean end |
| BlockingDecoder.BufReader.ReadUntil | src/chunked.rs:66-68 | a bounded read takes the bytes through the first LF, or the limit, or to the close, whatever the short reads |
| BlockingDecoder.ChunkedReader.ReadLine | src/chunked.rs:64-84 | the line reader is the strict one of the specification |
| BlockingDecoder.ChunkedReader.SkipTrailers | src/chunked.rs:87-94 | skipping trailers moves to the end of them or fails as the stream says |
| BlockingDecoder.ChunkedReader.Read | src/chunked.rs:99-145 | each read returns the front of what the rest of the stream means, and nothing only at the end |
| BlockingDecoder.ReadToEnd | src/chunked.rs:98-146 | payload and outcome depend on the stream alone, whatever the short reads, buffer capacity and caller buffers |
| AsyncDecoder.BufReader.PollFillBuf | src/chunked.rs:202-206 | a poll loses no byte and never buffers more than the capacity; an empty buffer when ready means that the stream has closed |
| AsyncDecoder.BufReader.PollRead | src/chunked.rs:275-277 | a read hands over the front of the stream, past an empty buffer when the caller has as much room |
| AsyncDecoder.AsyncBody.constructor | src/chunked.rs:179-190 | chunked framing wins over a length, a length over reading to the close |
| AsyncDecoder.AsyncBody.PollLine | src/chunked.rs:194-232 | a line gathered over any number of polls is the first of the stream, or is refused as the specification allows; where the source answers to plan, a line that can be returned is |
| AsyncDecoder.AsyncBody.TakePiece | src/chunked.rs:214-227 | a piece of a line joins what was read before, and a finished line loses its terminator only |
| AsyncDecoder.AsyncBody.PollPayload | src/chunked.rs:236-257 | payload bytes are handed over in order, no more than asked for and none past the chunk |
| AsyncDecoder.AsyncBody.PollRead | src/chunked.rs:262-344 | each poll keeps what the stream means, less what it returns, whether or not the source was pending; when the source answers to plan, what it means by the most lenient rule |
| AsyncDecoder.AsyncBody.PollPlain | src/chunked.rs:275-289 | the same for bodies with a length, where a close that comes too early is UnexpectedEof, or read to the close |
| AsyncDecoder.AsyncBody.PollChunk | src/chunked.rs:290-305 | the same inside a chunk |
| AsyncDecoder.AsyncBody.PollSize | src/chunked.rs:306-320 | the same at a size line |
| AsyncDecoder.AsyncBody.PollDataEnd | src/chunked.rs:321-335 | the same at the line that closes a chunk |
| AsyncDecoder.AsyncBody.PollTrailers | src/chunked.rs:336-341 | the same at trailers |
| AsyncDecoder.Collect | src/chunked.rs:261-345 | polling to the end gives what the remaining stream means, for settled streams |
| AsyncDecoder.FollowStep | src/chunked.rs:207-231 | the answers planned for a line hand it over a byte at a time while it may still turn out too long, and then all the rest |
| AsyncDecoder.ReadToEnd | src/chunked.rs:177-190 | a whole body, part of it buffered by whoever read the head: an agreeable chunked one is decoded; one with a length gives that many bytes, or what there is and UnexpectedEof; any other gives everything. Any chunked stream is decoded as leniently as its capacity allows by a source that answers to plan |
| ChunkedAgreement.Compare | src/chunked.rs:10-14 | both decoders deliver the same payload and outcome, under all splits, pending polls and buffer sizes, on the streams agreeable for the async capacity; on any other they differ when the source answers to plan |
| ChunkedAgreement.LongExtension | src/chunked.rs:228-230 | a zero chunk with a long extension is agreeable exactly when it is too long for the capacity |
| ChunkedAgreement.PrintedStreamsAgree | src/chunked.rs:13-14 | every printed stream is agreeable, for any capacity |
| Multipart.ChooseBoundary | src/wire.rs:117-124 | the search returns the least number whose boundary is in no part, and gives up only when all 2^32 candidates are in some part |
| Multipart.SearchBound | src/wire.rs:118-124 | the number chosen is at most ten times the total data length, while numbers have at most ten digits |
| Multipart.CounterSuffices | src/wire.rs:117-123 | the 32-bit counter does not run out for data of less than 2^32 / 10 bytes |
| Multipart.Pigeonhole | src/wire.rs:118-124 | distinct numbers below a bound are at most that many |
| Multipart.CodeInjective | src/wire.rs:119-120 | two candidates of one length cannot begin at one place |
| Multipart.DecimalReads | src/wire.rs:119 | decimal digits determine their number |
| Multipart.Encode | src/wire.rs:113-151 | the loop writes every part between delimiters, in order, and names the boundary in the content type |
| MultipartParser.SegmentHasNoDelimiter | src/wire.rs:128-146 | no delimiter begins in a part's framing or data, or across the two |
| MultipartParser.SegmentReads | src/wire.rs:130-144 | a written part reads back as its quoted names, content type and exact data |
| MultipartParser.SameWords | src/wire.rs:125-150 | the words written are those of the format, which the reader has as its own |
| MultipartParser.ReadPartsAreOneLiners | src/wire.rs:139-141 | whatever can be read back has one-line content types |
| MultipartParser.RoundTrip | src/wire.rs:109-151 | a body reads back as its parts, in order, if and only if no content type has a line break |
| Session.DrainTakesPrefix | src/nets/uart.rs:347-368 | draining takes everything through the first error or quiet moment, appends exactly its data and keeps its last status |
| Session.DrainConserves | src/nets/uart.rs:347-368 | draining moves data from the queue to the buffer and loses none |
| Session.Uart.Open | src/nets/uart.rs:253-305 | opening succeeds if and only if a confirmation is the first to decide among the slots met before the deadline; it times out if and only if none decides and the deadline comes before the close; data that came first is kept, and path and rate are those confirmed |
| Session.Uart.Pump | src/nets/uart.rs:347-368 | the blocking loop is the drain |
| Session.Uart.Read | src/nets/uart.rs:377-380 | a read returns everything drained and empties the buffer; a failed one leaves it all buffered |
| Session.Uart.TryRead | src/nets/uart.rs:388-391 | as the read, without a wait |
| Session.Uart.WaitFor | src/nets/uart.rs:397-416 | success takes the shortest prefix of the stream that ends in the needle; it comes if and only if the needle is in the buffer, or in it after one of the drains that the wait has time for, none of which failed; a failure takes nothing, and is that of the drain that failed, or else a timeout |
| Session.TakeThrough | src/nets/sio.rs:41-45 | the buffer is cut after the first occurrence, or left alone when there is none |
| Session.AsyncUart.Open | src/nets/uart.rs:459-509 | the same on its own loop, with the first quiet moment as the deadline |
| Session.AsyncUart.Absorb | src/nets/uart.rs:553-564 | one event changes the buffer or the status, or fails, and nothing else |
| Session.AsyncUart.DrainQueue | src/nets/uart.rs:567-577 | the async drain is the drain |
| Session.AsyncUart.Pump | src/nets/uart.rs:581-593 | so is waiting for data and then draining |
| Session.AsyncUart.Read | src/nets/uart.rs:596-599 | as the blocking read |
| Session.AsyncUart.TryRead | src/nets/uart.rs:602-605 | as the blocking read, without waiting |
| Session.AsyncUart.WaitFor | src/nets/uart.rs:609-627 | as the blocking wait |
| Session.ComparePumps | src/nets/rtt.rs:240-259 | blocking pump, async drain and async pump leave the same buffer, status, queue and result, for every queue |
| Session.Run | src/nets/rtt.rs:156-308 | over every run, failed calls included, what was delivered, buffered and queued is all the data that arrived, in order |
| Session.RunAsync | src/nets/rtt.rs:353-513 | the same for async sessions |
| Session.WaitForTwice | src/nets/rtt.rs:289-308 | sessions sent the same bytes in different pieces find the same prefix |
| Session.ShortestIsUnique | src/nets/sio.rs:41-45 | there is one shortest prefix |
| TokenStore.MergeCookies | src/auth.rs:184-191 | rotated cookies are laid over the old ones, one by one |
| TokenStore.MergedAt | src/auth.rs:184-191 | the last value set for a name wins, and cookies not set survive |
| TokenStore.CookiesAreStored | src/auth.rs:364-377 | the cookies a refresh is attempted with are exactly those stored, so one is attempted exactly when there is one |
| TokenStore.StoreShape | src/auth.rs:364-377 | where a store that a login wrote keeps mapping, token and cookies |
| TokenStore.ApplyRefresh | src/auth.rs:173-192 | the update of a refresh, malformed stores included |
| TokenStore.UpdateLookups | src/auth.rs:173-192 | one update changes exactly the mapping, token and cookies it is about |
| TokenStore.UpdateKeepsWellFormed | src/auth.rs:173-192 | updates keep a well-formed store well-formed |
| TokenStore.OthersUntouched | src/auth.rs:173-192 | other keys, and whole entries of servers not refreshed, stay as they were |
| TokenStore.UpdatesAreMerges | src/auth.rs:173-192 | after any updates each box maps to its last discovered server, each server has its last token and each cookie its last value |
| GatewayProtocol.StepIsSafe | src/client.rs:411-446 | every step of a call, whatever the others did to the shared state, keeps it safe: at most two sends, the second only after a 401 denial with nothing pinned and not of a stored token just rejected, the reply that of the last answer, and a pinned client with its pin only |
| GatewayProtocol.StepKeepsPinnedStore | src/auth.rs:292-310 | no step of a pinned client writes the store |
| GatewayProtocol.FinishedCall | src/client.rs:415-445 | a finished call sent once or twice and returns what its last answer calls for, an answer that is no denial unchanged |
| GatewayProtocol.StepProgresses | src/client.rs:411-446 | every call ends within 17 of its own steps |
| GatewayRuns.RunsAreSafe | src/client.rs:411-462 | every call is safe in every state of every interleaving of any calls, and a pinned client leaves the store alone |
| GatewayRuns.TokensAreSourced | src/auth.rs:329-430 | in every interleaving, each token a call attached is the pin; or was in the cache or in the store at an earlier step of that call, unexpired by the margin at the clock reading of that step, and for a retry in the store and not the one rejected; or was given to that call by an auth server at an earlier step |
| GatewayRuns.UpdatesAreGrounded | src/auth.rs:300-430 | each update that a run makes to the store is a discovery for this box of a server that a denial named, or a refresh that a known server gave to a call that asked it |
| GatewayRuns.RunsOnlyMerge | src/auth.rs:311-430 | races lose updates but nothing else: in every state of every interleaving the store, and every copy of it that a call has loaded, is the first one with some of the updates that the run made applied, in order |
| GatewayRuns.RunsKeep | src/auth.rs:311-430 | so the store stays well-formed if it was, other boxes stay mapped as before, and so does the whole entry of every server that was not refreshed, as no unknown server is |
| GatewayRaces.RaceEnds | src/auth.rs:311-427 | two updates of the store by two calls of a run, refreshes or discoveries, for one server or two, wherever they load and save and whatever else goes on that does not write: one after the other without overlap, only the last one saved with it |
| GatewayRaces.RaceExactly | src/auth.rs:311-427 | in any run, the store is that of the two updates in turn if and only if they do not overlap or the one saved last covers the other |
| GatewayRaces.OverlapLoses | src/auth.rs:311-427 | for updates of different things that both change the store, if and only if they do not overlap |
| GatewayRaces.SameServer | src/auth.rs:173-192 | of two refreshes of one server the last covers the first exactly when it sets every cookie the first changed |
| GatewayRaces.DifferentTargets | src/auth.rs:173-192 | an update saved over one of something else hides it unless that one changed nothing |
| GatewayRaces.LostRefresh | src/auth.rs:410-430 | a run of two calls from their start, on one client and one server, that loses the first refresh and its cookies |
| GatewayRaces.RejectedTokenAgain | src/auth.rs:410-430 | a whole call whose refresh returns the token just rejected sends it again |
| GatewayAlone.WholeIsComplete | src/client.rs:411-462 | a call in the strides of the client's functions comes to what the steps of the protocol come to: same shared state, sends, reply and scripts left |
| GatewayAlone.ResolvedExactly | src/auth.rs:396-430 | resolving gives the stored token, if it is not the one to avoid and expires more than 60 seconds from the reading; else the token of a refresh, if a cookie is stored and the refresh granted; else, and only then, nothing |
| GatewayAlone.CurrentExactly | src/client.rs:453-462 | the token sent first is the pin; or the cached one, if it expires more than 60 seconds from the reading; or what is resolved, if an auth server is known |
| GatewayAlone.CallFacts | src/client.rs:405-462 | a whole call sends the credential it has; it sends once more if and only if the first answer is a 401 denial, nothing is pinned and a credential can be resolved, and then sends that one, as `ResolvedExactly` has it; it returns what its last answer calls for and uses as many answers as it sends |
| GatewayAlone.CallIsSourced | src/auth.rs:329-430 | each token of a whole call is the pin, or unexpired by the margin at a reading of the clock script, or given by an auth server |
| GatewayAlone.PinnedCall | src/auth.rs:292-356 | a pinned client sends its pin, once, and leaves the store alone |
| GatewayAlone.SameTokenExactly | src/auth.rs:393-430 | the two tokens of a call are the same if and only if the stored one was of no use at the reading and the auth server gave the one rejected |
| GatewayAlone.CompleteRuns | src/client.rs:411-462 | completing a call goes on with any run, by steps of that call only |
| GatewayAlone.CallUpdates | src/auth.rs:300-320 | an uninterrupted call leaves the store with exactly its own discoveries and refreshes applied, maps no other box, and keeps memory and store in step |
| GatewayAlone.CallsUpdate | src/client.rs:405-446 | so do any number of calls, one after another |
| GatewayAlone.CallsDerive | src/auth.rs:300-430 | their updates are discoveries for this box of servers that denials named, and refreshes that auth servers gave, for servers so known |
| GatewayAlone.CallsConserve | src/auth.rs:410-430 | the refreshes applied by calls that do not overlap are all that the auth servers gave them, each once and in order |
| GatewayAlone.CallsKeep | src/auth.rs:311-430 | other boxes, and whole entries of servers not refreshed, stay as they were, and everything does under a pin |
| Gateway.GatewayAuth.constructor | src/auth.rs:265-284 | a client starts with the mapping its store has for the box |
| Gateway.GatewayAuth.LearnAuthServer | src/auth.rs:300-320 | the new state, memory and store, in every case |
| Gateway.GatewayAuth.CachedToken | src/auth.rs:329-342 | the pin, or the cached token if it is unexpired by the margin at the next reading of the clock; a stale one is dropped |
| Gateway.GatewayAuth.ResolveToken | src/auth.rs:410-430 | a stored token that will do; else, with a cookie stored, the token of the next refresh if it is granted; else nothing (as `GatewayAlone.ResolvedExactly` has it); result, state and scripts left are those of the protocol |
| Gateway.GatewayAuth.CurrentToken | src/client.rs:453-462 | the token chosen, the state and the scripts left are those of the start of the protocol's call |
| Gateway.GatewayAuth.WithGatewayAuth | src/client.rs:411-446 | reply, sends, state and scripts left are those of the protocol's call on the next readings, refreshes and answers; it sends twice if and only if the first answer is a 401 denial, nothing is pinned and a credential can be resolved |
| Gateway.Calls | src/client.rs:405-446 | any number of calls leave the first store with exactly the updates of the protocol's calls applied: discoveries of servers named by denials and every refresh given, in order; other boxes and servers not refreshed are untouched, this box maps to the server known, and a pinned client left it alone |
| ResponseHead.ParseHead | src/tunnel.rs:64-104 | the loop finds the status and, for each header looked at, the last value; `HeaderFields.PrintedSays` states what that comes to |
| ResponseHead.PrintedReads | src/tunnel.rs:62-104 | a printed head followed by anything ends where it was printed to end and reads back, if and only if it is UTF-8 |
| HeaderFields.PrintedSays | src/tunnel.rs:62-104 | what is read from a printed head: its status; the last discovery value; the length declared; and chunked if and only if the last transfer coding is |
| HeaderFields.Utf8Exactly | src/tunnel.rs:65 | a head is text if and only if it spells code points in UTF-8 |
| HeaderFields.StatusExactly | src/tunnel.rs:67-71 | a status line gives the number below 2^16 that is its second word, if the first begins with HTTP/ |
| HeaderFields.CodingExactly | src/tunnel.rs:89-94 | a transfer coding counts as chunked if and only if what follows its last comma is the word "chunked", in any case, with white space around it |
| HeaderFields.LengthExactly | src/tunnel.rs:86-88 | a content length is an optional plus and decimal digits worth less than 2^64, and zero if it is anything else |
| HeaderFields.NumberExactly | src/tunnel.rs:71 | the texts that read as a number below a limit |
| HeaderFields.LastCounts | src/tunnel.rs:74-95 | of headers with one name, compared without case and white space, the last counts |
| HeaderFields.NamesAreFound | src/tunnel.rs:79-89 | the names looked for are those that servers write |
| Tunnel.ReadHead | src/client.rs:326-341 | reading byte by byte takes exactly the bytes through the first blank line, if that is within the limit |
| Tunnel.Handshake | src/client.rs:301-353 | a tunnel opens exactly on a 200, with every byte after the head and no other still in the socket; other heads are classified |
| Tunnel.PrintedOutcome | src/tunnel.rs:122-138 | what a printed head comes to: a tunnel on 200; a denial by status and last discovery header; a 403 is no debug port and a 502 nothing listening, with the body's start, at most the length declared, 4096 bytes or what arrived at once; any other status is unsupported |
| Tunnel.LongHead | src/client.rs:326-330 | a head of more than 64 KiB is no tunnel |
| Tunnel.Client.TunnelOnce | src/client.rs:301-311 | one CONNECT uses one connection |
| Tunnel.Client.Authorized | src/client.rs:228-263 | one or two CONNECTs, which are the sends of the protocol's call on the answers that the connections give, with its state and scripts left; two if and only if the first is a 401 denial, nothing is pinned and a credential can be resolved; the last answer decides |
| Tunnel.Client.DirectPort | src/client.rs:362-377 | the published port, or the error that names the gateway when a token is pinned or an auth server is known |
| Tunnel.Client.DebugTunnel | src/client.rs:201-224 | at most 21 rounds and 42 CONNECTs, each round the protocol's call of its number and ended by its last answer, a round repeated only after a 502 and a pause, giving up only when a pause would pass the deadline; the last round decides |
| Tunnel.AtMost21Rounds | src/tunnel.rs:23-27 | rounds that are 250 ms apart and end in time to repeat within 5 s are at most 21 |
| Tunnel.WaitOut | src/tunnel.rs:23-27 | 21 rounds are made when every CONNECT is answered 502 and nothing but the pauses takes any time |
| Tunnel.PlainBox | src/client.rs:201-224 | a box that answers 501, or any status that is no tunnel, refusal or denial, has its published port connected to at once, after one CONNECT |
| RttStream.ReadUntilLf | src/async_client.rs:584-590 | a line is read through its LF or to the close, whatever the splits and pending polls |
| RttStream.ReadHead | src/async_client.rs:580-590 | reading line by line takes exactly the bytes through the first blank line, up to one byte past the limit |
| RttStream.PrintedStream | src/async_client.rs:604-612 | a printed 200 reaches the decoder with every byte after the head, and as chunked if its last coding is, else with the length declared, else to the close; any other status is a denial by its discovery header, or a refusal |
| RttStream.LongHead | src/async_client.rs:580-590 | a head of more than 64 KiB and a byte opens nothing |
| RttStream.Client.StreamOnce | src/async_client.rs:544-626 | one request: the body decoder is fed exactly the bytes after the head, or a denial is learned |
| RttStream.Client.Stream | src/async_client.rs:513-539 | one or two requests, which are the sends of the protocol's call on the answers that the connections give, with its state and scripts left but that a second denial is learned too; two if and only if the first is a 401 denial, nothing is pinned and a credential can be resolved |
| RttStream.Client.StreamToEnd | src/async_client.rs:544-612 | head and body together: what is read is what the bytes after the head mean, wherever the connection was pending and however it split: a steady chunked body decoded, a length kept to or cut short, or all to the close |
| RttStream.PrintedToEnd | src/async_client.rs:544-612 | the same from a printed 200 head on |
| Lscp.LeReads | src/nets/scope_trace.rs:297-318 | bytes of a number read back as it, least first |
| Lscp.SaysOne | src/nets/scope_trace.rs:127-205 | a frame carries at most one capture |
| Lscp.WellFormedExactly | src/nets/scope_trace.rs:127-205 | the frames that decode, byte by byte: "LSCP", version 1, 64 bytes, 16 a channel and two a sample, channels A to Z |
| Lscp.DecodeChannels | src/nets/scope_trace.rs:155-175 | descriptors decode exactly when every code names a channel |
| Lscp.Decode | src/nets/scope_trace.rs:127-205 | decoding succeeds exactly on frames with the right magic, version, codes and length, with the capture the frame carries |
| Lscp.FrameSays | src/nets/scope_trace.rs:60-115 | the frame written for a capture carries it |
| Lscp.DecodeFrame | src/nets/scope_trace.rs:127-205 | decoding a written capture restores every field |
| Lscp.HeaderKept | src/nets/scope_trace.rs:134-148 | every header byte that is used is written back as it was |
| Lscp.DescriptorKept | src/nets/scope_trace.rs:155-175 | so is every descriptor byte that is used, the coupling byte aside, whose unknown codes all mean DC |
| Lscp.ReencodeKeeps | src/nets/scope_trace.rs:127-205 | writing back a decoded frame gives the same bytes wherever a byte is used |
| Lscp.UnusedExactly | src/nets/scope_trace.rs:127-205 | the bytes that say nothing: 52 to 63, and six of each descriptor |
| Lscp.ChannelIndex | src/nets/scope_trace.rs:241-244 | the first channel of a letter, in either case |
| Lscp.UpperExactly | src/nets/scope_trace.rs:241-244 | a letter stands for itself or its small form |
| Lscp.CountsAtIs | src/nets/scope_trace.rs:247-251 | a captured channel's slice exists and has one entry a sample |
| Lscp.SlicesTile | src/nets/scope_trace.rs:247-251 | the slices of all channels, in order, are the sample array |
| ScopeStream.FrameInMatches | src/nets/scope_trace.rs:550-559 | the frame found for a number was received and bears that number |
| ScopeStream.FrameTakes | src/nets/scope_trace.rs:406-420 | a read takes the messages through the first capture, and no other capture |
| ScopeStream.FrameInExactly | src/nets/scope_trace.rs:550-563 | frames of other numbers, state notices and control frames are passed over, up to the first frame wanted or the end of the call |
| ScopeStream.PeekExactly | src/nets/scope_trace.rs:320-323 | where the number of a frame is |
| ScopeStream.Socket.Read | src/nets/scope_trace.rs:507-532 | reading skips control frames and ends at a close or the deadline |
| ScopeStream.Socket.AwaitReply | src/nets/scope_trace.rs:536-545 | the reply is the first text that is no state notice, past any captures |
| ScopeStream.Socket.Capture | src/nets/scope_trace.rs:547-566 | a one-shot capture is decoded from the first frame with the number acknowledged, and succeeds exactly when there is one and it decodes; what is left in the inbox is what follows that frame |
| ScopeStream.Socket.Open | src/nets/scope_trace.rs:381-390 | a subscription grants four credits once sent, passes over captures ahead of its reply, and opens exactly when a reply comes |
| ScopeStream.Socket.NextCapture | src/nets/scope_trace.rs:404-421 | the first capture in the inbox is consumed; it is returned and credited exactly when it decodes and its credit can be sent |
| ScopeStream.Run | src/nets/scope_trace.rs:381-421 | a subscription and its reads are those steps, whatever comes, and grant what the tally says, a failed reply included |
| ScopeStream.OpenedExactly | src/nets/scope_trace.rs:381-390 | subscribing grants four credits, or none if it could not be sent; captures ahead of the reply are received and earn nothing |
| ScopeStream.LostExactly | src/nets/scope_trace.rs:407-411 | over any number of reads, the captures that earned no credit are those that did not decode and those whose credit failed to be sent; credits and captures balance |
| ScopeStream.WindowHolds | src/nets/scope_trace.rs:375-379 | with a daemon that sends captures only against credit at most four are in flight, fewer by each that earned no credit, in every interleaving with the client's code |
| ScopeStream.StuckExactly | src/nets/scope_trace.rs:375-379 | no further capture can be received exactly when four earned no credit |
| ScopeStream.CallRuns | src/nets/scope_trace.rs:404-421 | a read of the client is a run of client and daemon steps, if the daemon keeps to its credits |
| ScopeStream.ReplyRuns | src/nets/scope_trace.rs:534-545 | so is the wait for the reply, and captures ahead of it earn nothing |
| ScopeStream.SubscriptionStuckExactly | src/nets/scope_trace.rs:381-421 | a subscription read any number of times is stuck if and only if four captures came ahead of the reply, did not decode, or failed to be credited |
| ScopeStream.StuckSubscription | src/nets/scope_trace.rs:381-421 | one inbox on which it happens |
| Base64.JoinedIsAligned | src/auth.rs:96-113 | accumulating then aligning and shifting into place give the same octets |
| Base64.Encode | src/nets/debug.rs:43-65 | the loop writes the letters of every group and pads the last: four characters for every three octets begun |
| Base64.DecodeGroup | src/nets/debug.rs:90-104 | one group by shift and OR |
| Base64.UrlDecodeGroup | src/auth.rs:98-112 | one group by accumulating |
| Base64.Decode | src/nets/debug.rs:70-107 | decoding drops white space and proper padding, and fails exactly on bad letters, padding or length |
| Base64.UrlDecode | src/auth.rs:83-115 | decoding drops padding at the end |
| Base64.LettersRead | src/nets/debug.rs:43-107 | the letters of any bytes read back, in either alphabet |
| Base64.SextetExactly | src/nets/debug.rs:71-80 | a character has a value only as the letter of that value |
| Base64.LettersDecodeExactly | src/nets/debug.rs:86-107 | letters decode if and only if each is in the alphabet and there is not one left over |
| Base64.DecodedExactly | src/nets/debug.rs:67-107 | the standard decoder accepts text if and only if, white space apart, it is letters in a number that decodes and at most two padding characters at their end |
| Base64.UrlDecodedExactly | src/auth.rs:83-115 | the URL decoder accepts text if and only if it is such letters and any padding at their end |
| Base64.SpaceDropped | src/nets/debug.rs:81 | blanks, tabs, line feeds, form feeds and returns count for nothing, wherever they are |
| Base64.StandardRoundTrip | src/nets/debug.rs:67-107 | encoded bytes decode to themselves with white space anywhere and with or without padding |
| Base64.UrlRoundTrip | src/auth.rs:83-115 | the same for the URL alphabet and any padding |
| Base64.EncodeDecode | src/nets/debug.rs:43-107 | encoding then decoding is the identity |
| Base64.DecodersAgree | src/auth.rs:83-115 | on unpadded text without white space the two decoders agree, up to the two letters in which the alphabets differ |

## Left out

- Sockets, TLS, DNS, WebSocket and Socket.IO handshakes, files and environment variables: scripts stand for them.
- I/O errors other than a close, and interrupted reads. What is read after a decoder has reported an error is not described.
- Narrowing of 64-bit lengths to a 32-bit `usize`.
- RTT sessions as classes of their own: they run the loops of the UART sessions without status events, and their confirmation names a backend instead of a path and a rate.
- Session.Uart.Read: a wait is a quiet moment in the queue, not a time.
- Session.Uart.WaitFor: the deadline is a number of looks at the clock, so how non-data events shorten or lengthen a wait is not described.
- The hex codecs of sessions and of the wire format, percent-encoding and URL normalisation.
- Storing sessions, JWT expiry as floating point (expiry is a function of the token) and failures to save the store.
- Gateway.GatewayAuth.ResolveToken: what the auth server's HTTP answer must look like; the blocking client takes statuses below 400 and the async one only 2xx.
- Tunnel.Handshake: the text made of a refusal's body, timeouts of the handshake and the bytes of the request.
- Tunnel.Client.DirectPort: which of several addresses is connected to.
- The blocking RTT stream's request and head, which the HTTP library handles; its body decoder is modelled.
- RttStream.Client.StreamOnce: the refusal's body, which only shapes the error message, and the request timeout.
- Lscp.Decode: floating-point fields are bit patterns; `volts` and `time_axis` are not modelled.
- ScopeStream.Socket.Open: the stream ticket request, and captures' maximum size.
- Net handles, admin operations, response parsing and error wording: straight-line code.
