# Verified model of the LeoReplayer emulator and the LeoCC controller

This project models, in Dafny, the parts of the repository that carry state from one event to the next, and proves what
they promise over every input and every run. Clocks, random draws, file descriptors and the kernel socket are parameters.

- **HTTP parsing** (`Text`, `Tokenize`, `ChunkedParser`, `ChunkedGrammar`, `ChunkedStandard`, `HttpMessage`, `HttpSession`, `HttpRoundTrip`, `HttpRules`): the incremental
  HTTP/1.1 parser. Main results: exactly when the way a byte stream is cut into pieces makes no difference, which for requests is
  always; the chunked parser accepts exactly the bodies of a grammar, and reads the bodies of RFC 2616 to their end, whatever their
  data, exactly if their chunks are shorter than 2^32 - 2 bytes and trailers are there when announced; every response ends where its
  headers say and the next begins there; a parsed message survives writing and parsing again exactly if its header values start
  with something other than a space.
- **Link emulator** (`PacketQueues`, `LinkModel`, `LinkRuns`, `LinkEmulator`): the trace-driven link over infinite, drop-tail
  and drop-head queues. Main results: order and conservation over every run, the backlog recursion, where each packet is
  after each opportunity, exact use of the schedule, and lazy emulation equal to eager emulation.
- **Queue disciplines with a clock** (`CodelQueue`, `CodelStandard`, `CodelClocks`, `Rounding`, `PieQueue`, `PieLaw`): every CoDel discard is preceded
  by a report, made exactly for a queue that persisted for an interval; the code is always in the state that RFC 8289 asks for
  but drops the packets behind those the RFC drops; with the two clocks of the link as built the target has no effect; the
  PIE catch-up loop is a periodic timer, and each of its periods obeys the control law exactly.
- **LeoCC** (`LeoccMath`, `LeoccKalman`, `LeoccModel`, `LeoccRuns`, `LeoccRules`, `LeoccConnection`): the mode machine, the reconfiguration
  trigger, the two Kalman filters, full-bandwidth detection and the fixed-point arithmetic. Main results: a reconfiguration is
  never lost and is answered after at most five helpful ACKs, each mode lasts exactly as long as its rule says, STARTUP ends
  within a logarithmic number of rounds, and the filters settle within 25 updates.
- **Small queues** (`ByteStreamQueue`, `DelayQueue`, `SwitchingLink`).

Each component has a specification in functions over values, lemmas about it, and a class whose methods have the loops and
assignments of the source and are proved against the specification. Failed asserts and exceptions are results (`None`,
`Failed`, `Thrown`, `ok == false`), after which nothing is said about the object. The queue classes of the source are one
class with a tag for the discipline; `HTTPRequest` and `HTTPResponse` are one class with a tag for the kind.

Where the code does not do what its comments or the cited standards say, the model follows the code:

- `pie_packet_queue.cc:130-135` says the queue did not change since the last update. `dequeue` catches up after the packet has
  left, so this is true of it only if no period is due (`PieQueue.DequeueTimedExactly`); a burst of twelve packets drained within
  30 milliseconds is enough for it to fail.
- Inside `CODELPacketQueue::dequeue` an inner `r` shadows the outer one, so the old head is returned and the packets behind it
  are the ones discarded, where RFC 8289, section 5.5, returns the last packet popped and drops those before it. A call does what the
  RFC says if and only if it drops nothing, which the state before it tells (`CodelStandard.DequeueAgainstRfc`). The last packet a call
  drops need not have waited long (`CodelStandard.DropsReported`): `CodelStandard.ShadowingDropsFresh` drops one after two milliseconds
  under a target of five where the RFC drops one that waited 105.
- `LinkQueue` stamps packets with the wall clock and CoDel reads the time since start. `CodelClocks.SojournAcrossClocks` says exactly
  when the comparison with the target still comes out right and `CodelClocks.RunAcrossClocks` that in practice the target has no
  effect. In the run of `CodelStandard.ClocksDropFresh` for that reason even the `dequeue` of the RFC drops a packet that waited two
  milliseconds under a target of five, and none with one clock.
- A drop-head queue with a byte limit fails an assert when one packet is not enough to make room
  (`PacketQueues.DropHeadSurvives`).
- Section 3.6.1 of RFC 2616 ends a body with a blank line after any number of trailers. The code looks for a line end if no trailers
  were announced and for a blank line after a line end if they were, so it ends there exactly if there are trailers when they were
  announced (`ChunkedStandard.RfcBodyIsRead`, for chunks of less than 2^32 - 2 bytes); `EmptyTrailerStalls` and
  `UnannouncedTrailerCut` are the two inputs.
- A chunk size is cut to 32 bits and added to 2 in 32 bits. With a chunk of 2^32 - 2 bytes or more there is always data with which the
  body is not read to its end (`ChunkedStandard.RfcBodiesReadExactly`); 2^32 bytes count as the last chunk (`HugeChunkIsLast`). A chunk
  whose size is read as 0xFFFFFFFE or 0xFFFFFFFF is taken only if all of it is there in one call: the one case in which the cut of a stream matters (`HttpSession.CutsMatterExactly`,
  `HttpRoundTrip.LongResponseDependsOnCut`).
- Header values that are empty or only spaces do not survive writing and parsing (`HttpRoundTrip.EmptyValueDoesNotSurvive`).
- After the last opportunity of a trace that does not repeat, `wait_time` returns the low 32 bits of a distance to time -1, not
  an endless wait (`LinkEmulator.LinkQueue.WaitTime`, `LinkRuns.RunFinishes`).
- Below a bandwidth of 4 units STARTUP cannot notice that growth has stopped (`LeoccRuns.ConstantBandwidth`).
- The clock of the simulation variant wraps before its 32-bit source does (`LeoccModel.SimulationClock`).

## Model

| member | source | states |
|---|---|---|
| `Tokenize.SplitJoin` | leoreplayer/replayer/src/http/tokenize.hh:9-38 | joining the tokens with the separator gives the string back, and no token holds the separator |
| `Tokenize.JoinSplit` | leoreplayer/replayer/src/http/tokenize.hh:9-38 | conversely, tokens without separators are recovered from their joined string, so the two facts determine `split` |
| `Tokenize.Split` | leoreplayer/replayer/src/http/tokenize.hh:9-38 | the loop that collects positions and the loop that cuts produce those tokens |
| `Text.NumberRoundTrip` | leoreplayer/replayer/src/util/ezio.cc:11-29 | every number that fits a `long` is read back from its plain decimal or hexadecimal digits |
| `Text.NumberForms` | leoreplayer/replayer/src/util/ezio.cc:11-29 | white space, a sign, the prefix 0x in base 16 and digits are read as that number if it fits a `long` |
| `Text.OnlyNumberForms` | leoreplayer/replayer/src/util/ezio.cc:11-29 | and nothing else is read |
| `Text.DigitExactly` | leoreplayer/replayer/src/util/ezio.cc:11-29 | the hexadecimal digits in both cases, and no other characters, have those values |
| `ChunkedParser.ScanAppend` | leoreplayer/replayer/src/http/chunked_parser.cc:38-98 | what the loop of `read` finds in some bytes it also finds when more bytes follow, and where it stalled it resumes; a failure is undone only by bytes that fill a chunk whose size makes the 32-bit sum wrap |
| `ChunkedParser.ReadBookkeeping` | leoreplayer/replayer/src/http/chunked_parser.cc:34-123 | `parsed_so_far_` plus the buffer is `acked_so_far_` and the parser is saturated between calls; the assert on them never fails; the returned count is in 1..input length |
| `ChunkedParser.NewBytesUsed` | leoreplayer/replayer/src/http/chunked_parser.cc:108-117 | a body never completes within bytes already acknowledged |
| `ChunkedParser.ReadSplit` | leoreplayer/replayer/src/http/chunked_parser.cc:34-101 | two reads of two pieces are one read of both, unless the first fails within a chunk of wrapping size that the second would complete |
| `ChunkedParser.PiecesReadAsWhole` | leoreplayer/replayer/src/http/chunked_parser.cc:34-123 | for any stream and any cut of it, outcome, total acknowledged and state left behind are those of one call; only a failure can be due to the cut, and only if the stream takes a chunk of wrapping size |
| `ChunkedGrammar.CutsMatterExactly` | leoreplayer/replayer/src/http/chunked_parser.cc:60-71 | with or without trailers announced, no cut of any stream of up to n bytes makes a difference if and only if n < 2^32 + 4, where the 32-bit sum of chunk size and 2 can wrap |
| `ChunkedGrammar.TailsAreFound` | leoreplayer/replayer/src/http/chunked_parser.cc:79-91 | the needle search of the code finds exactly the tails of the grammar: one line, or announced trailers up to their blank line |
| `ChunkedGrammar.BodyIsRead` | leoreplayer/replayer/src/http/chunked_parser.cc:34-123 | every body of the chunk grammar is read to its last byte and no further, whatever follows |
| `ChunkedGrammar.ReadIsBody` | leoreplayer/replayer/src/http/chunked_parser.cc:34-123 | whatever the parser accepts is a body of the chunk grammar |
| `ChunkedGrammar.ReadsExactlyTheBody` | leoreplayer/replayer/src/http/chunked_parser.cc:34-123 | for every stream: reading completes after n bytes, without a chunk of wrapping size, if and only if the first n bytes are chunks, a zero size line and such a tail |
| `ChunkedGrammar.MissingTrailers` | leoreplayer/replayer/src/http/chunked_parser.cc:79-91 | announced trailers that are not there: the body goes on to the next blank line of the stream, or never ends |
| `ChunkedGrammar.ExtraTrailers` | leoreplayer/replayer/src/http/chunked_parser.cc:79-91 | trailers that were not announced: the body ends after the first of them |
| `ChunkedGrammar.EmptyTrailerStalls` | leoreplayer/replayer/src/http/chunked_parser.cc:79-91 | `0`, CRLF, CRLF with trailers announced does not end, and takes the head of the next response for its trailer |
| `ChunkedGrammar.UnannouncedTrailerCut` | leoreplayer/replayer/src/http/chunked_parser.cc:79-91 | `0`, CRLF, `A: b`, CRLF, CRLF without trailers announced ends after nine bytes of eleven |
| `ChunkedStandard.SizeLineIsRead` | leoreplayer/replayer/src/http/chunked_parser.cc:11-32 | a size written in hexadecimal digits of any case and length, with any chunk extension or trailing spaces, is read modulo 2^32, or throws from 2^63 on |
| `ChunkedStandard.RfcBodyIsRead` | leoreplayer/replayer/src/http/chunked_parser.cc:34-123 | every body of RFC 2616, section 3.6.1, with chunks of less than 2^32 - 2 bytes, any trailers and whatever follows, is read to exactly its end if and only if it has trailers exactly when they were announced |
| `ChunkedStandard.RfcBodiesReadExactly` | leoreplayer/replayer/src/http/chunked_parser.cc:34-123 | for chunks of any sizes: the body is read to exactly its end whatever data is in it if and only if all chunks have less than 2^32 - 2 bytes and there are trailers exactly when they were announced |
| `ChunkedStandard.HugeChunkIsLast` | leoreplayer/replayer/src/http/chunked_parser.cc:11-32 | a chunk of 2^32 bytes, or a multiple of that, ends the body at the first line end in its data or right behind it, whatever the data |
| `ChunkedStandard.EncodedIsRead` | leoreplayer/replayer/src/http/chunked_parser.cc:34-123 | data written as chunks of less than 2^32 - 2 bytes, with any extensions and trailers: the parser takes exactly the bytes written if and only if there are trailers exactly when they were announced; with a longer chunk there is data for which it does not |
| `ChunkedParser.ShortLine` | leoreplayer/replayer/src/http/chunked_parser.cc:11-32 | a size line of fewer than two characters means less than 16, so it cannot bring the sum to wrap |
| `ChunkedParser.ChunkedBodyParser.Read` | leoreplayer/replayer/src/http/chunked_parser.cc:34-101 | the loop over the fields returns and leaves what one scan of the buffered and new bytes gives |
| `ChunkedParser.ChunkedBodyParser.ComputeAckSize` | leoreplayer/replayer/src/http/chunked_parser.cc:108-123 | the acknowledgement of a found or missing needle |
| `HttpMessage.HTTPMessage.HasHeader` | leoreplayer/replayer/src/http/http_message.cc:130-140 | whether some header name is equivalent |
| `HttpMessage.HTTPMessage.GetHeaderValue` | leoreplayer/replayer/src/http/http_message.cc:142-152 | the value of the first equivalent header, or the exception |
| `HttpMessage.LookupFirst` | leoreplayer/replayer/src/http/http_message.cc:142-152 | the value found is that of the first header with an equivalent name |
| `HttpMessage.LookupUpToCase` | leoreplayer/replayer/src/http/http_message.cc:111-152 | header names matter only up to ASCII case and leading spaces |
| `HttpMessage.EquivalentChain` | leoreplayer/replayer/src/http/http_message.cc:111-128 | the comparison is symmetric and transitive |
| `HttpRules.EquivalentExactly` | leoreplayer/replayer/src/http/http_message.cc:92-128 | two names are equivalent if and only if, after their leading spaces, they have the same length and at each place the same character or a capital ASCII letter and its small one |
| `HttpRules.AnyCapitalisation` | leoreplayer/replayer/src/http/http_message.cc:142-152 | a header is found however its name is capitalised |
| `HttpRules.SmallLetters` | leoreplayer/replayer/src/http/http_message.cc:130-152 | `content-length` is found as Content-Length, and Content-Type is not |
| `HttpRules.StatusOf` | leoreplayer/replayer/src/http/http_response.cc:13-22 | version, code and reason with spaces between them: the code is the second part |
| `HttpRules.ShortStatusLine` | leoreplayer/replayer/src/http/http_response.cc:13-22 | a status line with fewer than two spaces throws |
| `HttpRules.NoBodyRule` | leoreplayer/replayer/src/http/http_response.cc:30-36 | rule 1 on the status line as text |
| `HttpRules.ChunkedRule` | leoreplayer/replayer/src/http/http_response.cc:37-47 | rule 2: a Transfer-Encoding whose last part is chunked; trailers exactly if there is a Trailer header |
| `HttpRules.LengthRule` | leoreplayer/replayer/src/http/http_response.cc:48-52 | rule 3: without Transfer-Encoding the body is as long as the digits of Content-Length say, and a number that does not fit throws |
| `HttpRules.NegativeLength` | leoreplayer/replayer/src/http/http_response.cc:48-52 | a negative Content-Length is taken for a size just below 2^64 |
| `HttpRules.MultipartRule` | leoreplayer/replayer/src/http/http_response.cc:53-58 | rule 4 throws: no length, and the media type is multipart/byteranges or empty |
| `HttpRules.ClosingRule` | leoreplayer/replayer/src/http/http_response.cc:59-65 | rule 5: in every other case the body lasts until the connection is closed |
| `HttpRules.RequestRules` | leoreplayer/replayer/src/http/http_request.cc:9-25 | GET and HEAD have no body, POST has the length its header gives, anything else throws |
| `HttpRules.HeadIsParsed` | leoreplayer/replayer/src/http/http_message_sequence.hh:94-152 | a head at the front of the buffer is taken whole, with the oldest request for a response, and the rules apply to what follows |
| `HttpRules.ContentLengthEndsBody` | leoreplayer/replayer/src/http/http_message_sequence.hh:94-152 | a response with a Content-Length is complete after exactly that many body bytes, and the next one begins there |
| `HttpRules.ChunkedEndsBody` | leoreplayer/replayer/src/http/http_message_sequence.hh:94-152 | a chunked response is complete after its last chunk and its trailers, and the next one begins there |
| `HttpRules.BlankLineEndsResponse` | leoreplayer/replayer/src/http/http_message_sequence.hh:94-152 | a response without a body is complete after its blank line |
| `HttpRules.BlankLineEndsRequest` | leoreplayer/replayer/src/http/http_message_sequence.hh:94-152 | and so is a GET or HEAD request |
| `HttpRules.ClosingEndsBody` | leoreplayer/replayer/src/http/http_message.cc:61-77 | a body without length takes every byte and is complete when the connection is closed |
| `HttpRules.CloseExactly` | leoreplayer/replayer/src/http/http_message.cc:61-77 | between calls the end of the connection is an error if and only if it comes in the middle of the headers or of a body of known length |
| `HttpMessage.ContentLengthIgnored` | leoreplayer/replayer/src/http/http_response.cc:37-65 | where there is a Transfer-Encoding, Content-Length headers make no difference |
| `HttpMessage.NoBody` | leoreplayer/replayer/src/http/http_response.cc:30-36 | a 1xx, 204 or 304 status, or the answer to a HEAD request, has no body whatever the headers say |
| `HttpMessage.PostedLength` | leoreplayer/replayer/src/http/http_request.cc:16-21 | a Content-Length in plain digits is the size of the body of a POST request |
| `HttpMessage.HTTPMessage.RequestBodySize` | leoreplayer/replayer/src/http/http_request.cc:9-25 | the size rules of requests, with their exceptions |
| `HttpMessage.HTTPMessage.ResponseBodySize` | leoreplayer/replayer/src/http/http_response.cc:13-66 | rules 1 to 5 of RFC 2616, section 4.4, in the order of the code, with its exceptions |
| `HttpMessage.HTTPMessage.DoneWithHeaders` | leoreplayer/replayer/src/http/http_message.cc:23-36 | the message moves to its body with the length those rules give |
| `HttpMessage.HTTPMessage.ReadInBody` | leoreplayer/replayer/src/http/http_message.cc:38-59 | bytes taken, new body and completion, for known sizes and for the two body parsers |
| `HttpMessage.HTTPMessage.Eof` | leoreplayer/replayer/src/http/http_message.cc:61-77 | what the end of the connection does in each state |
| `HttpSession.StepDecreases` | leoreplayer/replayer/src/http/http_message_sequence.hh:94-138 | every step that goes on shortens the buffer or lowers the rank of the state, so the loop of `parse` ends |
| `HttpSession.StepAppend` | leoreplayer/replayer/src/http/http_message_sequence.hh:94-138 | one parsing step does the same when more bytes are already in the buffer, but for a chunk of wrapping size |
| `HttpSession.RunAppend` | leoreplayer/replayer/src/http/http_message_sequence.hh:141-152 | parsing resumes where the bytes ran out: running on some bytes and then on more is running on all of them; only a failure can be due to stopping |
| `HttpSession.FragmentationIndependence` | leoreplayer/replayer/src/http/http_message_sequence.hh:94-152 | for every stream and every cut into non-empty pieces: same completed messages, message in progress, leftover bytes and unanswered requests as in one call; only a failure can be due to the cut, and only if the stream takes a chunk of wrapping size |
| `HttpSession.RequestCuts` | leoreplayer/replayer/src/http/http_message_sequence.hh:94-152 | for requests there is no exception, whatever the length of the stream |
| `HttpSession.CutsMatterExactly` | leoreplayer/replayer/src/http/http_message_sequence.hh:94-152 | between calls: every cut of a stream gives what one call gives if and only if that call fails or takes no chunk of wrapping size |
| `HttpSession.ShortNeverWraps` | leoreplayer/replayer/src/http/http_message_sequence.hh:94-152 | with less than 2^32 bytes held and new no such chunk is taken |
| `HttpSession.CutsAgree` | leoreplayer/replayer/src/http/http_message_sequence.hh:141-152 | two cuts of the same stream cannot be told apart if both survive, or if it takes no chunk of wrapping size |
| `HttpSession.ReachableFromOpen` | leoreplayer/replayer/src/http/http_response_parser.cc:12-27 | every state a new session reaches by any calls, arrivals of requests and the end of the stream included, meets the premises of those theorems |
| `HttpSession.OrderDoesNotMatter` | leoreplayer/replayer/src/http/http_response_parser.cc:12-27 | however requests and pieces of their responses alternate, the session ends as if all requests had been there first and all bytes had come at once; only a failure can be due to the order: a response begins before its request arrived, or a chunk of wrapping size |
| `HttpSession.HTTPMessageSequence.ParsingStepInPlace` | leoreplayer/replayer/src/http/http_message_sequence.hh:94-138 | the step on the objects is the step of the model |
| `HttpSession.HTTPMessageSequence.ParseInPlace` | leoreplayer/replayer/src/http/http_message_sequence.hh:141-152 | `parse` on the objects leaves the session the model gives, or throws exactly when it does |
| `HttpSession.HTTPMessageSequence.GetAndPopLine` | leoreplayer/replayer/src/http/http_message_sequence.hh:74-91 | the first line goes out of the buffer with its CRLF |
| `HttpSession.HTTPMessageSequence.FirstLineInPlace` | leoreplayer/replayer/src/http/http_response_parser.cc:12-22 | a response takes the oldest unanswered request, and fails if there is none |
| `HttpSession.HTTPMessageSequence.NewRequestArrived` | leoreplayer/replayer/src/http/http_response_parser.cc:24-27 | a request joins the queue of unanswered ones at its end |
| `HttpSession.ResponsesPair` | leoreplayer/replayer/src/http/http_response_parser.cc:12-27 | over every sequence of calls, requests arriving in between: the requests answered, being answered and unanswered are those at the start followed by those that arrived, in order; so the k-th response answers the k-th request |
| `HttpRoundTrip.HeaderRoundTrip` | leoreplayer/replayer/src/http/http_header.cc:13-35 | writing a header and parsing it back gives it back if and only if its value starts with a character other than a space |
| `HttpRoundTrip.EmptyValueDoesNotSurvive` | leoreplayer/replayer/src/http/http_header.cc:29-35 | the header line `A:` is parsed to an empty value, written and parsed again to a space |
| `HttpRoundTrip.ParsedHeaderShaped` | leoreplayer/replayer/src/http/http_header.cc:13-35 | every parsed header has a key without colon and fits one line |
| `HttpRoundTrip.RoundTripsExactly` | leoreplayer/replayer/src/http/http_message.cc:155-174 | a completed message parses back from `str` to exactly itself with nothing left over if and only if its header values are plain and its body ends by its own framing |
| `HttpRoundTrip.CompletedShaped` | leoreplayer/replayer/src/http/http_message_sequence.hh:141-152 | every message completed in any run, requests arriving at any time and end of stream included, has the shape that theorem speaks of |
| `HttpRoundTrip.CompletedWhole` | leoreplayer/replayer/src/http/http_message_sequence.hh:141-152 | without an end of stream every completed body ends by its own framing; for responses, if the stream takes no chunk of wrapping size |
| `HttpRoundTrip.ParsedMessagesRoundTrip` | leoreplayer/replayer/src/http/http_message.cc:155-174 | every message that comes out of a new parser, for any cut of any stream of requests, or of responses without a chunk of wrapping size, round-trips if and only if its header values are plain |
| `HttpRoundTrip.LongResponseDependsOnCut` | leoreplayer/replayer/src/http/http_message_sequence.hh:94-152 | a response of 2^32 + 4 body bytes that round-trips when read at once and makes the parser throw when cut after the fifth |
| `PacketQueues.EnqueueKeeps` | leoreplayer/replayer/src/packet/dropping_packet_queue.cc:40-79 | limits are kept, sizes grow by at most the packet, and the only losses are the packet (drop-tail) or the head (drop-head) |
| `PacketQueues.EnqueueExactly` | leoreplayer/replayer/src/packet/dropping_packet_queue.cc:40-79 | an infinite queue takes everything, a drop-tail queue what there is room for, and a drop-head queue lets its head go exactly if there is no room |
| `PacketQueues.DropTailTakes` | leoreplayer/replayer/src/packet/drop_tail_packet_queue.hh:20-28 | a drop-tail queue never fails its assert and takes the packet exactly if the limits leave room |
| `PacketQueues.DropHeadSurvives` | leoreplayer/replayer/src/packet/drop_head_packet_queue.hh:20-29 | the assert inside the drop loop holds if and only if the head is as large as the excess over the byte limit |
| `PacketQueues.PacketLimitSurvives` | leoreplayer/replayer/src/packet/drop_head_packet_queue.hh:20-29 | with a packet limit only it always holds |
| `PacketQueues.ByteLimitAborts` | leoreplayer/replayer/src/packet/dropping_packet_queue.cc:20-33 | two small packets and a large one for which it fails |
| `PacketQueues.PacketQueue.EnqueuePacket` | leoreplayer/replayer/src/packet/drop_head_packet_queue.hh:20-29 | the three `enqueue` bodies leave the queue the model gives and report a failed assert |
| `PacketQueues.PacketQueue.Dequeue` | leoreplayer/replayer/src/packet/dropping_packet_queue.cc:20-33 | the head goes out, counters stay sums of the queue, and the assert holds on a valid queue |
| `PacketQueues.PacketQueue.Accept` | leoreplayer/replayer/src/packet/dropping_packet_queue.cc:74-79 | the packet joins at the end and the counters stay sums of the queue |
| `LinkModel.ServeKeeps` | leoreplayer/replayer/src/frontend/link_queue.cc:237-266 | one opportunity never reorders, loses or invents a packet and moves min(backlog, 1504) bytes |
| `LinkModel.OpportunityKeeps` | leoreplayer/replayer/src/frontend/link_queue.cc:228-268 | each opportunity turns the backlog b into max(0, b - 1504), keeps the line of departed, half-sent and queued packets, and no packet leaves before it arrived |
| `LinkModel.QueueAfterOpportunity` | leoreplayer/replayer/src/frontend/link_queue.cc:237-266 | an opportunity leaves in the queue the longest end of the packets inside that fits the backlog it leaves; the rest of the backlog is still to be sent of the packet before, and all others have departed at its time |
| `LinkModel.OpportunityProgress` | leoreplayer/replayer/src/frontend/link_queue.cc:209-231 | the loop of `rationalize` ends although several opportunities may fall on one instant, because the last trace entry is positive |
| `LinkModel.TimesNondecreasing` | leoreplayer/replayer/src/frontend/link_queue.cc:200-223 | the k-th opportunity, at base + (k div n) * S + schedule[k mod n], is never before an earlier one, wraparound included |
| `LinkModel.UseNext` | leoreplayer/replayer/src/frontend/link_queue.cc:200-223 | the fields always describe the next opportunity of that list |
| `LinkModel.RationalizeExact` | leoreplayer/replayer/src/frontend/link_queue.cc:228-268 | `rationalize(now)` uses exactly the opportunities up to now and shrinks the backlog by 1504 bytes for each, not below zero |
| `LinkModel.RationalizeKeeps` | leoreplayer/replayer/src/frontend/link_queue.cc:228-268 | it keeps the invariant and the line, and leaves nothing due |
| `LinkModel.LazyIsEager` | leoreplayer/replayer/src/frontend/link_queue.cc:225-268 | `rationalize(t1)` then `rationalize(t2)` with t1 <= t2 is `rationalize(t2)` |
| `LinkRuns.ReadPacketKeeps` | leoreplayer/replayer/src/frontend/link_queue.cc:173-198 | an arrival joins the line at its end, or is refused, or makes the head of the queue go, and the drop record balances it |
| `LinkRuns.RunConserves` | leoreplayer/replayer/src/frontend/link_queue.cc:173-268 | over every run: departed, half-sent and queued packets are arrivals in order; arrivals are these plus recorded drops, in packets and bytes; with an infinite queue they are all arrivals |
| `LinkRuns.RunTail` | leoreplayer/replayer/src/frontend/link_queue.cc:173-268 | over every run with a drop-tail queue: departed, half-sent and queued packets are exactly the accepted arrivals, in order |
| `LinkRuns.RunSucceeds` | leoreplayer/replayer/src/frontend/link_queue.cc:173-198 | no exception and no failed assert while packets fit, for infinite, drop-tail and packet-limited drop-head queues |
| `LinkRuns.RunUses` | leoreplayer/replayer/src/frontend/link_queue.cc:200-268 | over every run opportunities are used in order, none twice and none left out |
| `LinkRuns.WaitsDoNotMatter` | leoreplayer/replayer/src/frontend/link_queue.cc:282-293 | calls of `wait_time` at any times between arrivals make no difference to the link once it is brought up to the same time |
| `LinkRuns.NewLink` | leoreplayer/replayer/src/frontend/link_queue.cc:15-32 | a new link meets the invariant and has used nothing |
| `LinkRuns.RunFinishes` | leoreplayer/replayer/src/frontend/link_queue.cc:200-223 | a run leaves the link finished if and only if its trace is not repeated and some event came at or after the last opportunity |
| `LinkEmulator.LinkQueue.LoadSchedule` | leoreplayer/replayer/src/frontend/link_queue.cc:44-66 | exactly the non-empty nondecreasing traces with a positive last entry are accepted |
| `LinkEmulator.LinkQueue.UseADeliveryOpportunity` | leoreplayer/replayer/src/frontend/link_queue.cc:209-223 | the position moves on; at the end the base moves by the last entry or the link is finished |
| `LinkEmulator.LinkQueue.SendBytes` | leoreplayer/replayer/src/frontend/link_queue.cc:246-265 | the four asserts hold, and a packet fully sent goes to the output queue |
| `LinkEmulator.LinkQueue.SendInOneDelivery` | leoreplayer/replayer/src/frontend/link_queue.cc:237-266 | the inner loop on the fields is the serving of the model |
| `LinkEmulator.LinkQueue.RationalizeTo` | leoreplayer/replayer/src/frontend/link_queue.cc:228-268 | the outer loop on the fields is the emulation of the model; what was departed is what was written followed by the output queue |
| `LinkEmulator.LinkQueue.ReadPacketAt` | leoreplayer/replayer/src/frontend/link_queue.cc:173-198 | `read_packet` with its exception, its two asserts and its drop record |
| `LinkEmulator.LinkQueue.WritePackets` | leoreplayer/replayer/src/frontend/link_queue.cc:270-280 | the output queue goes out in order |
| `LinkEmulator.LinkQueue.WaitTime` | leoreplayer/replayer/src/frontend/link_queue.cc:282-293 | the distance to the next opportunity, always in the future, or to time -1, cut to 32 bits; it is the true distance if and only if there is a next opportunity less than 2^32 away |
| `CodelQueue.ControlLaw` | leoreplayer/replayer/src/packet/codel_packet_queue.cc:56-60 | the step is the largest d with d * d * count <= interval * interval; asked for only with count >= 1 |
| `CodelQueue.ControlLawTruncates` | leoreplayer/replayer/src/packet/codel_packet_queue.cc:56-60 | a quotient computed to one part in 2^50, and exactly where it is whole, is cut to that step, for intervals of up to 2^24 milliseconds |
| `CodelQueue.DoDequeueSafe` | leoreplayer/replayer/src/packet/codel_packet_queue.cc:27-54 | a `dodequeue` reports ok_to_drop if and only if every `dodequeue` for at least an interval saw a wait of at least the target and more than one packet size of bytes queued |
| `CodelQueue.DropLoopSafe` | leoreplayer/replayer/src/packet/codel_packet_queue.cc:68-82 | every packet popped in the drop loop is covered by the report just before it; the loop ends on the queue length |
| `CodelQueue.DequeueSafe` | leoreplayer/replayer/src/packet/codel_packet_queue.cc:62-94 | `dequeue` never pops an empty queue, leaves a suffix, keeps `lastcount_` <= `count_`, and every discard follows, in the same call, a report of a persistent queue |
| `CodelQueue.StepsShrink` | leoreplayer/replayer/src/packet/codel_packet_queue.cc:56-60 | more drops mean shorter steps |
| `CodelQueue.DropLoopPace` | leoreplayer/replayer/src/packet/codel_packet_queue.cc:68-82 | the drop loop counts every discard, stops only when no drop is due or the queue has recovered, and never moves the next drop back |
| `CodelQueue.RunSafe` | leoreplayer/replayer/src/packet/codel_packet_queue.cc:27-104 | over every run with a clock that does not go back all of this holds for the whole history; the packets popped and queued are those at the start and the accepted arrivals, in order; those popped and not discarded are the ones `dequeue` returned |
| `CodelQueue.HistorySafe` | leoreplayer/replayer/src/packet/codel_packet_queue.cc:27-104 | the same from a new queue on: what it took is what it returned, discarded or holds |
| `CodelStandard.DequeueAgainstRfc` | leoreplayer/replayer/src/packet/codel_packet_queue.cc:62-94 | one call against the `dequeue` of RFC 8289, section 5.5: the same state and as many drops, each one packet further back; the same packets are returned and dropped if and only if the call drops none, and it drops some if and only if the first look reports and, while dropping, the next drop is due |
| `CodelStandard.DropsReported` | leoreplayer/replayer/src/packet/codel_packet_queue.cc:62-94 | the own look of every packet the RFC drops reported a persistent queue; of those the code drops all but possibly the last of a call |
| `CodelStandard.RunAgainstRfc` | leoreplayer/replayer/src/packet/codel_packet_queue.cc:27-94 | over every run of a new queue: the state of the RFC, the drops are the packets right behind those of the RFC, and the two agree if and only if nothing was dropped |
| `CodelStandard.ShadowingDropsFresh` | leoreplayer/replayer/src/packet/codel_packet_queue.cc:74-84 | with one clock, a run in which the code drops a packet that waited two milliseconds under a target of five and returns the one that waited 105, and the RFC the reverse |
| `CodelClocks.SojournAcrossClocks` | leoreplayer/replayer/src/packet/codel_packet_queue.cc:40-41 | with packets stamped by the wall clock and the queue reading time since start: what the unsigned sojourn time is for every wait, and exactly when its comparison with the target agrees with that of the true wait |
| `CodelClocks.ReportAcrossClocks` | leoreplayer/replayer/src/packet/codel_packet_queue.cc:27-54 | with such stamps the report to drop comes if and only if more than one packet size of bytes stayed queued for an interval, however short the waits |
| `CodelClocks.RunAcrossClocks` | leoreplayer/replayer/src/packet/codel_packet_queue.cc:27-94 | over every run with such stamps the queue does what it would with a target of zero, and its discards imply bytes queued for an interval only |
| `CodelClocks.DiscardsWithoutWaiting` | leoreplayer/replayer/src/packet/codel_packet_queue.cc:62-94 | a run in which the packet returned and the packet discarded on its report both waited two milliseconds under a target of five; nothing is discarded if packets are stamped by the clock the queue reads |
| `CodelStandard.ClocksDropFresh` | leoreplayer/replayer/src/packet/codel_packet_queue.cc:40-41 | in that run even the `dequeue` of the RFC drops a packet that waited two milliseconds, and none with one clock |
| `CodelQueue.CODELPacketQueue.DoDequeueInPlace` | leoreplayer/replayer/src/packet/codel_packet_queue.cc:27-54 | the head, the new state and the report of the model |
| `CodelQueue.CODELPacketQueue.DequeuePacket` | leoreplayer/replayer/src/packet/codel_packet_queue.cc:62-94 | it returns the old head, since the inner result shadows the outer, and leaves the state of the model |
| `CodelQueue.CODELPacketQueue.DropInPlace` | leoreplayer/replayer/src/packet/codel_packet_queue.cc:73-81 | the drop loop on the fields |
| `CodelQueue.CODELPacketQueue.EnterInPlace` | leoreplayer/replayer/src/packet/codel_packet_queue.cc:83-91 | entering the dropping state, in the unsigned arithmetic of the code |
| `CodelQueue.CODELPacketQueue.EnqueuePacket` | leoreplayer/replayer/src/packet/codel_packet_queue.cc:97-104 | `enqueue` is that of a drop-tail queue and its assert holds |
| `PieQueue.CatchUpIsTimer` | leoreplayer/replayer/src/packet/pie_packet_queue.cc:126-188 | the catch-up loop does exactly the work of a timer of period 30 and ends with `last_update_` <= now <= `last_update_` + 30 |
| `PieQueue.CatchUpTwice` | leoreplayer/replayer/src/packet/pie_packet_queue.cc:126-188 | catching up at t1 and then at t2 is catching up at t2, with the queue unchanged |
| `PieQueue.CatchUpKeeps` | leoreplayer/replayer/src/packet/pie_packet_queue.cc:149-173 | `drop_prob_` stays in [0, 1] |
| `PieQueue.PeriodPushes` | leoreplayer/replayer/src/packet/pie_packet_queue.cc:136-168 | the probability does not fall while the delay is at least the reference and not falling, nor rise while it is at most the reference and not rising |
| `PieLaw.PeriodExactly` | leoreplayer/replayer/src/packet/pie_packet_queue.cc:136-173 | the control law: in a period the probability moves by (delay - reference + 10 * change of delay) over 1024, 256 or 128, held within [0, 1], and decays by exactly two percent with nothing queued and no delay |
| `PieLaw.DelayExactly` | leoreplayer/replayer/src/packet/pie_packet_queue.cc:139-143 | the estimated delay is the bytes queued over the measured rate, rounded down |
| `PieLaw.AllowanceExactly` | leoreplayer/replayer/src/packet/pie_packet_queue.cc:174-185 | a period uses up thirty milliseconds of the burst allowance, or at the end of congestion restores it and forgets the rate |
| `PieLaw.AllowanceRunsOut` | leoreplayer/replayer/src/packet/pie_packet_queue.cc:174-174 | without a measured rate n periods use up 30 n milliseconds |
| `PieLaw.MeasurementBegins` | leoreplayer/replayer/src/packet/pie_packet_queue.cc:82-87 | a measurement begins exactly when 16384 bytes are still queued |
| `PieLaw.MeasurementGoesOn` | leoreplayer/replayer/src/packet/pie_packet_queue.cc:89-118 | it goes on until more than 16384 bytes have left and time has passed; the average rate then moves an eighth of the way to the bytes per millisecond, and the time is taken off the burst allowance |
| `PieQueue.EmptyForgets` | leoreplayer/replayer/src/packet/pie_packet_queue.cc:136-173 | with an empty queue 1024 periods bring the probability to zero |
| `PieQueue.EnqueueIsTimed` | leoreplayer/replayer/src/packet/pie_packet_queue.cc:35-53 | an arrival finds exactly the state a real timer would have left |
| `PieQueue.DequeueTimedExactly` | leoreplayer/replayer/src/packet/pie_packet_queue.cc:79-136 | for each time of the last update and of the call: a departure does so in all states that runs reach if and only if no period is due; the comment in the source claims it always |
| `PieQueue.RunValid` | leoreplayer/replayer/src/packet/pie_packet_queue.cc:35-188 | over every run the probability is in [0, 1], the limits hold and updates are not ahead of the clock |
| `PieQueue.EarlyDropsOnlyWhenLoaded` | leoreplayer/replayer/src/packet/pie_packet_queue.cc:56-77 | a packet that fits is refused only past the burst allowance, with at least 3008 bytes queued and a draw below the probability |
| `PieLaw.RefusedExactly` | leoreplayer/replayer/src/packet/pie_packet_queue.cc:35-77 | exactly when an arriving packet is refused, in terms of the limits, the burst allowance, the bytes queued, the draw, the probability and the old delay |
| `PieQueue.PIEPacketQueue.CalculateDropProb` | leoreplayer/replayer/src/packet/pie_packet_queue.cc:126-188 | the loop on the fields is the catch-up of the model |
| `PieQueue.PIEPacketQueue.OnePeriod` | leoreplayer/replayer/src/packet/pie_packet_queue.cc:137-185 | one turn of it, in the integer widths of the code |
| `PieQueue.PIEPacketQueue.EnqueuePacket` | leoreplayer/replayer/src/packet/pie_packet_queue.cc:35-53 | `enqueue` of the model, and its assert holds |
| `PieQueue.PIEPacketQueue.DequeuePacket` | leoreplayer/replayer/src/packet/pie_packet_queue.cc:79-124 | `dequeue` of the model with its two readings of the clock: the head goes out, the rate is measured, then the periods are caught up |
| `PieQueue.PIEPacketQueue.DropEarlyNow` | leoreplayer/replayer/src/packet/pie_packet_queue.cc:56-77 | the early-drop decision for a given draw |
| `SwitchingLink.ClosedForm` | leoreplayer/replayer/src/frontend/loss_queue.cc:96-115 | after `wait_time` the link is on if and only if (now - start) mod (on + off) < on, and switches next at the end of that stretch; either time may be zero |
| `SwitchingLink.AdvanceTwice` | leoreplayer/replayer/src/frontend/loss_queue.cc:100-104 | however the calls are spaced only the last one counts |
| `SwitchingLink.PeriodicSwitchingLink.WaitTime` | leoreplayer/replayer/src/frontend/loss_queue.cc:96-115 | the loop ends, leaves that state and returns the bounded wait |
| `SwitchingLink.PeriodicSwitchingLink.ReadPacket` | leoreplayer/replayer/src/frontend/loss_queue.cc:15-20 | a packet gets through if and only if (time of the last `wait_time` - start) mod (on + off) < on; before the first none does |
| `ByteStreamQueue.AvailableCounts` | leoreplayer/replayer/src/util/bytestream_queue.cc:20-30 | despite unsigned wraparound one sum is the number of bytes held and the two add up to the size less one |
| `ByteStreamQueue.PushAppends` | leoreplayer/replayer/src/util/bytestream_queue.cc:32-62 | a push of any length up to the contiguous space appends to the bytes held |
| `ByteStreamQueue.PopTakes` | leoreplayer/replayer/src/util/bytestream_queue.cc:64-87 | a pop of any length up to the contiguous bytes takes a prefix of them |
| `ByteStreamQueue.RunIsFifo` | leoreplayer/replayer/src/util/bytestream_queue.cc:32-87 | over any run of partial reads and writes: bytes popped then bytes held are bytes held at the start then bytes pushed |
| `ByteStreamQueue.ByteStreamQueue.PushChunk` | leoreplayer/replayer/src/util/bytestream_queue.cc:32-62 | `push` on the array, with its five asserts |
| `ByteStreamQueue.ByteStreamQueue.PopBytes` | leoreplayer/replayer/src/util/bytestream_queue.cc:64-87 | `pop` on the array, with its three asserts |
| `DelayQueue.RunSorted` | leoreplayer/replayer/src/frontend/delay_queue.cc:44-58 | over every run, however delays vary and ties are broken, the whole output is sorted by release time and output plus held packets are the arrivals |
| `DelayQueue.DelayOfSlot` | leoreplayer/replayer/src/frontend/delay_queue.cc:46-48 | in slot k of any repetition of the trace the delay is its k-th entry |
| `DelayQueue.DelayQueue.ReadPacket` | leoreplayer/replayer/src/frontend/delay_queue.cc:44-49 | the packet is held until now plus the delay of its trace slot |
| `DelayQueue.DelayQueue.WritePackets` | leoreplayer/replayer/src/frontend/delay_queue.cc:51-58 | it emits, in order, exactly the packets due at its last reading of the clock |
| `DelayQueue.DelayQueue.WaitTime` | leoreplayer/replayer/src/frontend/delay_queue.cc:60-73 | zero if something is due, else the time to the earliest release |
| `LeoccMath.RateIsExact` | leocc/live_network/leocc.c:145-154 | below 2^72 no 64-bit intermediate overflows and the rate is at most, and less than 2 bytes per second below, the exact one |
| `LeoccMath.BdpIsExact` | leocc/live_network/leocc.c:267-281 | less than one packet above the exact product and less than 2^-24 of one below it |
| `LeoccMath.BdpMonotone` | leocc/live_network/leocc.c:267-281 | monotone in bandwidth and gain |
| `LeoccMath.InflightMonotone` | leocc/live_network/leocc.c:283-303 | monotone too, even, and at least three segments above the bandwidth-delay product |
| `LeoccMath.InflightExactly` | leocc/live_network/leocc.c:283-303 | the bandwidth-delay product and three segments, rounded up to an even number, and two more in the probing phase of CRUISE; without a minimum round-trip time the product counts as ten packets |
| `LeoccKalman.UpdateKeeps` | leocc/live_network/leocc.c:696-710 | the 5-bit variance never overflows, gains are 224, 162 or 153, the 32-bit sum is exact and the estimate lies between the old one and the sample |
| `LeoccKalman.RunKeeps` | leocc/live_network/leocc.c:696-710 | over every run a range that holds the first estimate and all samples holds the last estimate |
| `LeoccKalman.GainsInOrder` | leocc/live_network/leocc.c:696-710 | the gains from `leocc_init` on are 224, 162, and 153 ever after |
| `LeoccKalman.BoundIsSharp` | leocc/live_network/leocc.c:699-699 | at 2^24 the 32-bit sum overflows and the estimate becomes zero |
| `LeoccKalman.ErrorHalves` | leocc/live_network/leocc.c:696-710 | with a constant sample the error halves, rounded up, without overshoot, and shrinks strictly until the estimate is the sample or one less |
| `LeoccKalman.SettlesWithin25` | leocc/live_network/leocc.c:696-710 | after 25 updates with the same sample the estimate is the sample or one less and stays there |
| `LeoccModel.SimulationClock` | leocc/simulation/leocc.c:697-699 | at any tick rate and from any start the milliseconds of the simulation are true if and only if at most 4294967 ticks have passed; then the 32-bit product wraps |
| `LeoccModel.PeriodBreaks` | leocc/simulation/leocc.c:697-699 | on the next tick the time in the period is wrong too, at the tick rates of the kernel |
| `LeoccModel.WindowExists` | leocc/simulation/leocc.c:697-704 | at any tick rate and from any start: the simulation can raise the trigger if and only if the offset is at least 100 and the window begins before the last time its clock can show; at usual rates 100 <= offset < 15100 |
| `LeoccRuns.HappenKeeps` | leocc/live_network/leocc.c:466-473 | every callback keeps: full bandwidth is reached exactly outside STARTUP; STARTUP is entered only from PROBE_RTT with the trigger up and the filter reset; outside STARTUP the trigger stays up |
| `LeoccRuns.RunInv` | leocc/live_network/leocc.c:568-649 | that invariant over every run |
| `LeoccRuns.FromStart` | leocc/live_network/leocc.c:549-583 | from the start of a connection on full bandwidth is reached exactly outside STARTUP and the 2-bit count has room |
| `LeoccRuns.NeverLost` | leocc/live_network/leocc.c:568-649 | over every run a pending reconfiguration is still pending at the end or was answered on the way |
| `LeoccRuns.RaisedIsPending` | leocc/live_network/leocc.c:689-703 | a trigger raised at an ACK outside STARTUP becomes pending or is answered by it |
| `LeoccRuns.MainKeeps` | leocc/live_network/leocc.c:689-703 | one ACK: the same, and a triggered CRUISE survives it only if it began with `idle_restart` set |
| `LeoccRuns.ProbeStarts` | leocc/live_network/leocc.c:617-622 | in CRUISE two ACKs, the first delivering something, are enough to start the probe |
| `LeoccRuns.ProbeEnds` | leocc/live_network/leocc.c:634-645 | the ACK that ends a round trip after the end of the probe answers the reconfiguration |
| `LeoccRuns.AckPhase` | leocc/live_network/leocc.c:568-649 | one ACK while a reconfiguration is pending: it is answered, or it does not get further from its answer, and gets nearer if the ACK helps |
| `LeoccRuns.AnswerComes` | leocc/live_network/leocc.c:568-649 | from any pending state, DRAIN included, every run without an idle restart that holds more helpful ACKs than phases are left, so at most five, holds the answer, whatever comes in between |
| `LeoccRuns.SomeAckHelps` | leocc/live_network/leocc.c:568-649 | in every such state some ACK helps: the flight drains, something is delivered, the end time passes and a round trip ends |
| `LeoccRuns.MinRttIsMinimum` | leocc/live_network/leocc.c:608-615 | while the window has not expired and no probe is on the minimum is that of the old one and the sample |
| `LeoccRuns.CycleIsNeutral` | leocc/live_network/leocc.c:101-106 | with the probing gain of 5/4 a cruise cycle paces at the estimate on average, with 21/20 below it |
| `LeoccRules.CruiseEndsExactly` | leocc/live_network/leocc.c:608-622 | an ACK in CRUISE starts the probe if and only if there was no idle restart and a reconfiguration is pending or raised or the minimum is more than twenty seconds old |
| `LeoccRules.DrainLastsExactly` | leocc/live_network/leocc.c:568-583 | DRAIN lasts if and only if the flight is above the target |
| `LeoccRules.StartupLeftExactly` | leocc/live_network/leocc.c:568-583 | when STARTUP ends the trigger and the bandwidth kept for it are forgotten, and DRAIN begins unless the flight is already down |
| `LeoccRules.ProbeWaitsExactly` | leocc/live_network/leocc.c:624-633 | PROBE_RTT sets its end time 200 milliseconds ahead exactly once the flight is down to half the bandwidth-delay product, or four packets |
| `LeoccRules.ProbeLastsExactly` | leocc/live_network/leocc.c:634-645 | it then lasts exactly until that time has passed and a round trip has ended; the minimum is then that of the sample, and the next mode STARTUP if a reconfiguration is pending and CRUISE if not |
| `LeoccRules.ProbeEndsExactly` | leocc/live_network/leocc.c:585-600 | the bandwidth after a probe: that kept for the reconfiguration, or the one it had |
| `LeoccRules.MinimumExactly` | leocc/live_network/leocc.c:608-615 | the minimum round-trip time after any other ACK: the sample if it is smaller, or if the minimum is more than twenty seconds old and the ACK was not delayed |
| `LeoccRules.UsableSample` | leocc/live_network/leocc.c:475-505 | one sample: the maximum of its round, the mark of the next round, what goes into the maximum over rounds, and the bandwidth kept when the delay drops in PROBE_RTT |
| `LeoccRules.NoSample` | leocc/live_network/leocc.c:483-484 | an unusable sample changes none of these |
| `LeoccRules.SampleExactly` | leocc/live_network/leocc.c:494-494 | the bandwidth of a sample is packets per microsecond in units of 2^-24, rounded down |
| `LeoccRules.MeasurementStays` | leocc/live_network/leocc.c:679-726 | nothing else in an ACK changes these, but for the end of STARTUP and the answer to a reconfiguration |
| `LeoccRules.MiddleExactly` | leocc/live_network/leocc.c:436-444 | CRUISE moves to its next phase exactly when the current one is over |
| `LeoccRules.CycleStart` | leocc/live_network/leocc.c:455-463 | CRUISE begins at a random phase but never at the one that paces below the bandwidth |
| `LeoccRules.GainsByMode` | leocc/live_network/leocc.c:651-676 | the pacing and window gains of each mode; those of STARTUP and DRAIN cancel to within one percent |
| `LeoccRules.FiltersSeeExactly` | leocc/live_network/leocc.c:689-710 | over every run the round-trip filter has seen exactly the positive samples, and the bandwidth filter the maxima of the rounds that ended in CRUISE |
| `LeoccRules.GrowthForgotten` | leocc/live_network/leocc.c:784-808 | after an undo the growth check starts over; after a timeout the next check can only find growth |
| `LeoccRules.IdleExactly` | leocc/live_network/leocc.c:251-265 | a transmission after idleness sets the idle restart, and ends a probe exactly if its end time has passed |
| `LeoccRuns.GrowProgresses` | leocc/live_network/leocc.c:549-566 | with full_bw >= 4 every check of STARTUP makes the bandwidth grow or the count rise, so the 2-bit count never wraps |
| `LeoccRuns.StartupEnds` | leocc/live_network/leocc.c:549-583 | with bandwidth bounded no run stays in STARTUP for as many counting rounds as the rank of its growth check: three for each step of growth left, and those of the count |
| `LeoccRuns.StartupRounds` | leocc/live_network/leocc.c:549-583 | that is at most twelve rounds for each doubling of the bandwidth and two more, and never more than 362 |
| `LeoccRuns.StartupRoundsFromZero` | leocc/live_network/leocc.c:549-583 | from the start of a connection or a return to STARTUP, if every counting round measures at least 4: at most 363 rounds |
| `LeoccRuns.StepsLogarithmic` | leocc/live_network/leocc.c:558-561 | growing by a quarter, rounded down, doubles the bandwidth in four steps |
| `LeoccRuns.ConstantBandwidth` | leocc/live_network/leocc.c:558-565 | at a constant bandwidth four checks are needed, and enough if and only if it is at least 4 and at most 3435973836 |
| `LeoccConnection.Connection.OnTxStart` | leocc/live_network/leocc.c:251-265 | `leocc_cwnd_event` on the fields: the state of the model, the invariant kept, and a pending reconfiguration still pending or answered |
| `LeoccConnection.Connection.OnUndoCwnd` | leocc/live_network/leocc.c:784-791 | `leocc_undo_cwnd` on the fields: the same |
| `LeoccConnection.Connection.OnLoss` | leocc/live_network/leocc.c:799-808 | `leocc_set_state` on a timeout on the fields: the same |
| `LeoccConnection.Connection.OnAck` | leocc/live_network/leocc.c:689-726 | `leocc_main` on the fields: the state of the model, the invariant kept, and a pending reconfiguration still pending or answered |

## Left out

- File descriptors, sockets, TUN devices, event loop, logging, graphs, protobuf and process plumbing; text reading of trace files beyond the checks on their numbers.
- LinkQueue over a CoDel or PIE queue: the link is modelled over the queues without a clock, the two others on their own.
- LinkEmulator.LinkQueue.ReadPacketAt: takes empty packets, but the invariant and the runs are for non-empty ones, because an empty one fails the assert at link_queue.cc:248 once it is in transit.
- Overflow of the 32-bit and 64-bit counters that only grow (sizes, `count_`, timestamps, acknowledged bytes); arithmetic that wraps in normal operation is modelled.
- CodelQueue.ControlLaw: the exact integer part of interval / sqrt(count); `ControlLawTruncates` says that a double gives it for intervals of up to 2^24 milliseconds, and for longer ones nothing is said about its rounding.
- PieQueue.Period: probabilities are reals, where the code rounds to doubles; the random draw is an input.
- `StochasticSwitchingLink` and `IIDLoss`: nothing but their random draws is added to what is modelled. The conversion of seconds to milliseconds before the switch times is not part of this model.
- Tokenize.Split: one-character separators, the only ones the callers use.
- `strtol` in locales other than C; strings longer than a `size_t` can count.
- Messages completed by the end of the connection: shown well shaped, and not to round-trip unless their body is whole.
- DelayQueue: the heap is a multiset whose top may be any packet with the least release time, so nothing is said about the order of ties.
- The congestion window, recovery, pacing rate, ACK aggregation and segment sizing of LeoCC, and the choice between the two bandwidth estimates; `leocc_pacing_gain[0]` is an input.
- The windowed maximum of the kernel: its value after a sample is an input, bound by `LeoccModel.FilterContract` where a bound matters.
- LeoccKalman.Update: the round-trip instance adds the sample in 64 bits, which differs only for samples of 2^24 microseconds and more.
- LeoccModel.Env: the quantities a callback only reads (packets in flight, clock, end of a cruise phase) are inputs without constraints.
- Recorder, trace and experiment scripts, `netlink.h` and `monitor_ping.c`: the environment of the trigger.
