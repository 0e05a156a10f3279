# Verified model of the mirror agent and its readiness ledger

The mirror agent copies the HTTP requests that reach an APIGEE proxy to a shadow backend (EWP). A program in the kernel takes the TCP payload off each matching frame and puts it into a ring buffer; the agent decodes the records, reassembles each connection's byte stream into requests, and sends every request on. The shadow backend's simulator keeps a ledger of what it was sent and decides whether traffic may be cut over.

This project models that path in Dafny and proves what it guarantees.

| file | what it models |
|---|---|
| `ByteStrings.dfy`, `Headers.dfy` | the string functions, numerals and the header multimap the agent uses, down to `Atoi`'s range check and canonical field names |
| `HttpParser.dfy` | extraction of requests from bytes: outcomes, prefix stability, tiling |
| `Rfc9112.dfy` | request messages as RFC 9112 writes them (sections 3, 5, 6.2 and 6.3), and the round trip |
| `Tracker.dfy` | the packet filter, the stream table as a value, and the tracker object with its locked phases and its reaper |
| `Runs.dfy`, `Delivery.dfy` | whole runs with undivided operations: meaning by epochs, segmentation independence, isolation, delivery, byte conservation, death |
| `Driver.dfy`, `Malformed.dfy` | the tracker object driven through a whole run, and what each of its counters counts; parse errors against malformed heads |
| `Blocking.dfy` | chunked bodies (RFC 9112, section 7.1), which block a connection, and lengths out of range, which end the process |
| `Interleaving.dfy` | the two-phase `Feed` beside the reaper, with a clock; refinement of the undivided one |
| `Conservation.dfy`, `Quiescence.dfy`, `ConcurrentCounts.dfy` | that machine's account of bytes, the complete requests in its streams, and its counters |
| `Wire.dfy`, `Kernel.dfy`, `Loader.dfy` | byte order, the kernel hook and its record, the decoder |
| `EndToEnd.dfy` | the composition from frames to requests, as theorems and as one method over hook, ring, loader and tracker, frames and reads in any order |
| `Counters.dfy` | all counters as a state machine over packets and `Send` goroutines |
| `Mirror.dfy`, `Routes.dfy` | the header fields that are sent on; the route table |
| `Ledger.dfy`, `Report.dfy` | the simulator's log under concurrent handlers; the report and its verdict |
| `Sums.dfy` | sums over finite maps |

Conventions. A byte is a `char` below 256. A Go panic that ends the process is an explicit outcome (`Fault`, `panic`, `dead`, `life`). A Go slice is never longer than the largest `int`, which appears as `MAX_INT` in the methods' preconditions; nothing else bounds their inputs. Times are integers in nanoseconds. Operations in the source's own form (classes, loops, arrays) are proved equal to functions on values; the theorems are about those functions.

Where the code and its own words differ, the model follows the code:

- The repository's own `README.md:120-127` draws the matched counter after the submission to the ring; `kernel/mirror.bpf.c:98-101` bumps it first, before it is known whether there is a payload.
- `mirror-agent/tracker.go:187-189` says a reaped stream never had a complete request and is not mirrored. That holds between calls of `Feed` (`Delivery.Quiescent`), but not while one is between its two phases: then its stream may have complete requests in front (`Quiescence.CompleteInFrontIff`), and a sweep takes them exactly if the packet arrived before the cutoff (`Quiescence.SweepTakesRequestIff`). They are mirrored all the same (`Conservation.LateTrimDoubles`), or the second phase panics (`Interleaving.NilPanicIff`) and they are lost (`Interleaving.TwoPhaseRefines`).
- `mirror-agent/stats.go:18` calls `parseErrors` malformed HTTP in the assembled buffer; one malformed head is counted again with every later segment (`Driver.OneHeadManyErrors`), so the counter is the number of malformed heads exactly if no segment arrives behind one (`Malformed.ErrorsAreHeadsIff`).
- `mirror-agent/tracker.go:35-37` promises complete HTTP/1.x requests. Only the first Content-Length decides, so a message is recovered exactly if that announces the length of its body (`Rfc9112.RecoveredIff`). Transfer-Encoding is ignored: a chunked message comes out without its body and blocks its connection (`Blocking.ChunkedBlocks`, and `Blocking.UploadBlocks` for one such message).
- A negative or huge Content-Length panics instead of being rejected (`Blocking.FatalIff`), so one packet can end the process (`Blocking.OnePacketKills`).
- `ewp-sim/main.go:438` uses a package the file does not import; the evident lower-casing is modelled.

## Model

| member | source | states |
|---|---|---|
| ByteStrings.FirstBlankLine | mirror-agent/tracker.go:137 | after a head of non-empty lines, the first blank line is the one that ends it, whatever the body contains |
| ByteStrings.SplitOfJoin | mirror-agent/tracker.go:142-143 | splitting joined lines at CRLF gives the lines back |
| ByteStrings.JoinOfSplit | mirror-agent/tracker.go:143 | splitting loses nothing |
| ByteStrings.SplitPieces | mirror-agent/tracker.go:143 | and cuts at every separator |
| ByteStrings.TrimSpaceIs | mirror-agent/tracker.go:160 | trimming takes off the six bytes of white space, and those only, at both ends, until none is left there |
| ByteStrings.ValueOfConcat | mirror-agent/tracker.go:166 | digits count by their place |
| ByteStrings.AtoiIs | mirror-agent/tracker.go:166 | a numeral with or without a sign is read exactly if its value fits into 64 bits, two's complement |
| ByteStrings.AtoiReads | mirror-agent/tracker.go:166 | and nothing else is |
| ByteStrings.AtoiOfDecimal | mirror-agent/tracker.go:166 | a printed length reads back as itself exactly if a 64-bit int holds it |
| Headers.KeysFoldCase | mirror-agent/tracker.go:160-165 | two field names share a header entry exactly if they differ in letter case only |
| Headers.TokenCharsAre | mirror-agent/tracker.go:160 | which bytes a canonicalised field name may have: all visible ones but the delimiters |
| Headers.CanonicalForm | mirror-agent/tracker.go:160 | canonical form byte by byte: capitals at the start and after hyphens, small letters elsewhere |
| HttpParser.ParseOneRequest | mirror-agent/tracker.go:136-185 | the parser with its loop over field lines and its wrapping 64-bit sum computes the outcome defined over unbounded numbers, including where it panics |
| HttpParser.ParseHTTPRequests | mirror-agent/tracker.go:104-124 | the extraction loop terminates and computes the batch parse |
| HttpParser.OutcomesWhen | mirror-agent/tracker.go:136-185 | exactly when the parser waits, rejects or panics, for all inputs |
| HttpParser.CompleteSize | mirror-agent/tracker.go:137-172 | a complete request takes at least five bytes and no more than there are |
| HttpParser.ParseOneStable | mirror-agent/tracker.go:136-185 | prefix stability: a request, an error or a panic stays the same on every extension of the input |
| HttpParser.ParseOneExact | mirror-agent/tracker.go:136-185 | a request's own bytes parse alone to the same request, and every shorter prefix is incomplete |
| HttpParser.CompleteReconstructs | mirror-agent/tracker.go:142-184 | the consumed bytes are the lines, the blank line and the body; the first line is method, space and path, or goes on behind another space; the body has the announced length |
| HttpParser.ParseAllStops | mirror-agent/tracker.go:109-123 | parsing stops at the first place where no complete request starts, for that place's reason |
| HttpParser.ParseAllAppend | mirror-agent/tracker.go:104-124 | parsing a longer stream is parsing the shorter one and going on from what it left over |
| HttpParser.ParseAllSticks | mirror-agent/tracker.go:109-116 | a malformed or panicking front stops the parser on every extension, with the same requests before it |
| HttpParser.ParseAllTiles | mirror-agent/tracker.go:109-123 | the results tile the consumed bytes into adjacent slices that re-parse alone to the same requests, and nothing complete follows |
| HttpParser.TilingUnique | mirror-agent/tracker.go:109-123 | there is only one such tiling, so tiling defines the batch parse |
| Rfc9112.AddFieldsValues | mirror-agent/tracker.go:154-161 | under each name the recovered header holds the values of that name, in order, names compared without case |
| Rfc9112.ColonLine | mirror-agent/tracker.go:155-160 | any line with a colon is a field: name and value are what stands before and behind the first colon, without the white space around them |
| Rfc9112.LineWithoutColon | mirror-agent/tracker.go:156-159 | a line without one is skipped |
| Rfc9112.RoundTrip | mirror-agent/tracker.go:136-185 | a rendered well-formed message is recovered exactly, with any spaces and tabs around values and whatever follows it |
| Rfc9112.TabbedIsRead | mirror-agent/tracker.go:136-185 | one such message, written out, with a tab before its length |
| Rfc9112.HeadDecides | mirror-agent/tracker.go:136-185 | behind any well-formed head, whatever follows, the first Content-Length alone decides between waiting, panicking and a request with that many bytes of body |
| Rfc9112.RecoveredIff | mirror-agent/tracker.go:163-184 | a message with a well-formed head is recovered exactly if its first Content-Length announces the length of its body, or, without one, if it has no body |
| Rfc9112.PipelineRoundTrip | mirror-agent/tracker.go:102-185 | messages sent back to back are recovered in order and once each |
| Tracker.CheckContinuation | mirror-agent/tracker.go:222-238 | the counting loop decides whether, of the first 64 bytes, eight tenths are among 32 to 126, tab, line feed and return |
| Tracker.CheckHTTP | mirror-agent/tracker.go:211-218 | the loop over methods decides whether the segment starts with one of the seven and a space |
| Tracker.FilterIs | mirror-agent/tracker.go:211-238 | the filter used everywhere else is just these two tests, on every segment |
| Tracker.TextPasses | mirror-agent/tracker.go:222-238 | a non-empty segment of text only is never dropped |
| Tracker.TCPTracker.constructor | mirror-agent/tracker.go:43-47 | a new tracker has no streams |
| Tracker.TCPTracker.AppendSegment | mirror-agent/tracker.go:67-77 | first locked phase: the stream is created or extended and stamped, the snapshot is its whole buffer, no other stream changes |
| Tracker.TCPTracker.TrimConsumed | mirror-agent/tracker.go:85-94 | second locked phase: the stream is deleted or keeps the unconsumed rest; it panics exactly if a rest has no stream |
| Tracker.TCPTracker.FeedSegment | mirror-agent/tracker.go:65-99 | on an accepted segment, table, requests, panic and the two counters are those of parsing buffer plus segment |
| Tracker.TCPTracker.FeedPacket | mirror-agent/tracker.go:51-100 | one whole packet: filter, table, requests with the sender's address, panic, and every counter's exact change |
| Tracker.TCPTracker.DeleteStale | mirror-agent/tracker.go:196-206 | the sweep's loop deletes exactly the streams older than the cutoff and counts each once |
| Tracker.TCPTracker.Reap | mirror-agent/tracker.go:190-209 | the sweep leaves exactly the streams heard from since the cutoff, contents untouched |
| Tracker.StampAll | mirror-agent/tracker.go:81-83 | every request of a batch gets the address, and nothing else of it changes |
| Runs.UnparsedAppend | mirror-agent/tracker.go:74-94 | feeding a segment on top of the stored rest has the results of parsing the whole epoch |
| Runs.RunMeaning | mirror-agent/tracker.go:51-124 | over any packets on any connections with sweeps between them, a connection's output is the batch parses of its epochs between reaps, and its stream is the unparsed rest of the current one |
| Runs.DeadIff | mirror-agent/tracker.go:79 | a run dies exactly when some connection has an epoch whose parse panics |
| Delivery.SegmentationIndependence | mirror-agent/tracker.go:51-124 | without reaps, output and stored buffer depend on a connection's accepted bytes only, not on their segments; no stream exists exactly if nothing is left over |
| Delivery.DeathIndependence | mirror-agent/tracker.go:51-124 | neither does death: it comes exactly if some connection's bytes make the parser panic |
| Delivery.PipelinedDelivery | mirror-agent/tracker.go:51-185 | pipelined messages arrive as exactly the requests they encode, through any accepted segmentation, and leave no stream |
| Delivery.Isolation | mirror-agent/tracker.go:65-97 | a connection is treated as if no other packets existed |
| Delivery.Quiescent | mirror-agent/tracker.go:79-94 | with undivided operations, between them every stream has bytes and no complete request at its front, so a sweep discards none |
| Delivery.MalformedBlocks | mirror-agent/tracker.go:110-116 | behind a malformed head each further segment assembles nothing and meets the same error |
| Delivery.ByteConservation | mirror-agent/tracker.go:58-94 | with undivided operations, in every reachable state, accepted bytes = emitted + reaped + buffered, over all connections |
| Driver.EffectIsShare | mirror-agent/tracker.go:51-124 | a parse error is counted for exactly those accepted packets after which the connection's bytes since its last reap, parsed as a whole, stop at a malformed head |
| Driver.ErrorsGoOn | mirror-agent/tracker.go:110-116 | once that is so, every further segment adds one parse error and no request |
| Driver.OneHeadManyErrors | mirror-agent/tracker.go:110-116 | one malformed head and k segments behind it are counted as k + 1 errors |
| Malformed.ErrorsSplit | mirror-agent/tracker.go:110-116 | for each connection, the errors counted are the epochs with a malformed head plus the accepted packets that arrive when it is already blocked by one |
| Malformed.ErrorsAddUp | mirror-agent/tracker.go:110-116 | the counter is the sum of these over the connections |
| Malformed.ErrorsAreHeadsIff | mirror-agent/tracker.go:110-116 | in any run the counter is the number of malformed heads exactly if no accepted packet arrives on a blocked connection |
| Driver.Apply | mirror-agent/main.go:38-43 | one packet or sweep on the tracker object is one step of the run, with its exact effect on every counter |
| Driver.Drive | mirror-agent/main.go:38-43 | a tracker object that gets these packets and sweeps ends in the state of the run, with its output, and with the run's totals in the counters; assembled is the number of requests handed over |
| Blocking.ChunkedRejectedIff | mirror-agent/tracker.go:147-150 | a chunked body in front of the parser is rejected as a request exactly if its size line has no space |
| Blocking.ChunkedParse | mirror-agent/tracker.go:136-185 | a chunked message gives a request with an empty body, and stops the parser for good exactly if the size line has no space |
| Blocking.ChunkedBlocks | mirror-agent/tracker.go:51-124 | through any segmentation, a chunked message is the last thing its connection delivers: all bytes from the body on stay in the buffer |
| Blocking.UploadBlocks | mirror-agent/tracker.go:136-185 | such a message, written out |
| Blocking.FatalIff | mirror-agent/tracker.go:166-177 | the parser panics on a well-formed head exactly if the announced length is negative or puts the end of the body beyond the largest int |
| Blocking.FatalKills | mirror-agent/tracker.go:51-185 | such a head, behind any messages and in any accepted segments, ends the process |
| Blocking.FatalHeads | mirror-agent/tracker.go:166-177 | the lengths -1 and 2^63 - 1 are fatal |
| Blocking.OnePacketKills | mirror-agent/tracker.go:51-185 | one accepted packet with a length of -1 ends the process |
| Interleaving.PromptTrim | mirror-agent/tracker.go:67-94 | in every schedule, a second phase within 10 s of the first finds its stream with the snapshot and does not panic |
| Interleaving.NilPanicIff | mirror-agent/tracker.go:85-94 | the second phase panics exactly if a sweep with a cutoff after the arrival came between and the batch was partial |
| Interleaving.NilPanicMeansLate | mirror-agent/tracker.go:190-209 | a schedule that dies that way has a second phase later than 10 s, so one with prompt phases never does |
| Interleaving.TwoPhaseRefines | mirror-agent/tracker.go:67-94 | in every schedule of one feeder and the reaper, streams and output between packets are those of the undivided run in arrival order; a panic in the second phase loses exactly the requests of its packet |
| Interleaving.ConcurrentMeaning | mirror-agent/tracker.go:51-209 | concurrency does not change the meaning of a run by epochs |
| Interleaving.LateTrimPanics | mirror-agent/tracker.go:91 | every partial segment panics on the schedule that is one nanosecond late |
| Interleaving.LateSegment | mirror-agent/tracker.go:91 | such a segment exists |
| Quiescence.CompleteInFrontIff | mirror-agent/tracker.go:67-94 | in every state of every schedule, a stream has a complete request in front exactly if it is that of a packet between its two phases and the snapshot holds one |
| Quiescence.NeverEmpty | mirror-agent/tracker.go:67-94 | and no stream is ever stored without bytes |
| Quiescence.SweepTakesRequestIff | mirror-agent/tracker.go:190-209 | a sweep throws away a complete request exactly if the packet in progress holds one, still has its stream, and arrived before the cutoff; it is then more than 10 s old |
| Quiescence.LateSweepTakesRequest | mirror-agent/tracker.go:190-209 | it happens to every segment with a complete request, one nanosecond late |
| ConcurrentCounts.CountersRefine | mirror-agent/tracker.go:51-209 | in every schedule, packets received, dropped, parse errors and assembled requests are those of the undivided run up to the packet in progress, and reaped streams exceed that run's by those whose packets were finished all the same |
| ConcurrentCounts.ReapedIff | mirror-agent/tracker.go:190-209 | between packets all counters agree with the undivided run exactly if no packet was finished after a sweep had taken its stream |
| Conservation.BytesBalance | mirror-agent/tracker.go:58-94 | in every state of every schedule of feeder and reaper, accepted bytes, and again those both reaped and emitted, are the emitted, the reaped and the buffered ones |
| Conservation.BytesConservedIff | mirror-agent/tracker.go:58-94 | accepted = emitted + reaped + buffered exactly if no packet with a request was finished after a sweep had taken its stream |
| Conservation.LateTrimDoubles | mirror-agent/tracker.go:85-94 | a segment of complete requests, one nanosecond late, is reaped and emitted: its bytes count twice |
| Conservation.DoubledSegment | mirror-agent/tracker.go:85-94 | such a segment exists |
| Wire.IpStrWireOrder | mirror-agent/loader.go:212-216 | an address is printed as four numerals with dots, in the order of its bytes on the wire, lowest octet of the word first |
| Kernel.Hook.MirrorIngress | kernel/mirror.bpf.c:65-147 | which frames are counted, dropped or recorded, and the exact record |
| Kernel.Hook.FillSlot | kernel/mirror.bpf.c:129-143 | the fields written one by one make up the record's layout, with the length and the copied bytes cleared if copying fails |
| Kernel.HdrOffset | kernel/mirror.bpf.c:85-105 | the payload offset is at most 134 |
| Kernel.PartsMatch | kernel/mirror.bpf.c:71-107 | on any frame put together from Ethernet, IP and TCP headers of any legal lengths: it is matched exactly if it is IPv4, TCP and to the port, and recorded exactly if a byte follows the headers |
| Kernel.PartsRecorded | kernel/mirror.bpf.c:84-143 | its record decodes to the addresses and ports in those headers, the flag bits, and the first 1500 bytes behind them |
| Kernel.CopyLen | kernel/mirror.bpf.c:111-117 | the copied length is 1 to 1500 and lies inside the frame |
| Kernel.FlagBits | kernel/mirror.bpf.c:134-138 | the assembled flag byte is the low five bits of the header's |
| Kernel.CodecInverse | kernel/mirror.bpf.c:129-143 | decoding a record gives back exactly the event's fields and bytes |
| Kernel.CaptureOfUnpadded | kernel/mirror.bpf.c:105-117 | off an unpadded frame the hook takes the front of the TCP payload, and all of it exactly if it has at most 1500 bytes |
| Kernel.CaptureOfPadded | kernel/mirror.bpf.c:111-117 | off a padded frame it takes the payload and padding bytes behind it, unless the payload alone fills the array, and then its first 1500 bytes |
| Loader.DecodeRecord | mirror-agent/loader.go:159-178 | field loads, the clamps and the copy loop compute the decoded event, with zeros behind a short record |
| Loader.DecodedFields | mirror-agent/loader.go:153-178 | every field of the event in numbers, from the bytes at its offset; the length at most 1500; zeros behind the bytes a record has |
| Loader.ReadEvents | mirror-agent/loader.go:146-182 | the callback gets the events of all long enough records, in order |
| EndToEnd.Capture | kernel/mirror.bpf.c:65-147 | the hook on any frames leaves the records of those to the mirrored port with bytes behind their headers, in order, up to the ring's capacity, and counts the rest as drops |
| EndToEnd.PartsFlow | kernel/mirror.bpf.c:84-143 | of a frame put together from its headers, data and padding, the connection is that of the headers, and TCP carries the data |
| EndToEnd.FrameArrivesIff | mirror-agent/tracker.go:52-65 | a recorded frame gives the tracker the bytes TCP carries in it exactly if it is clean |
| EndToEnd.CleanUnpadded | mirror-agent/tracker.go:58-63 | without padding it is clean exactly if the copy succeeds and the payload has at most 1500 bytes and passes the filter |
| EndToEnd.CleanPadded | mirror-agent/tracker.go:58-63 | with padding, exactly if the payload alone fills the array and passes, or there is none and the padding does not pass |
| EndToEnd.TextIsClean | mirror-agent/tracker.go:222-238 | unpadded segments of 1 to 1500 bytes of text are clean |
| EndToEnd.PaddedAckIsClean | mirror-agent/tracker.go:222-238 | so are bare ACKs padded with zeros |
| EndToEnd.FramesArrive | mirror-agent/loader.go:146-182 | the events of clean frames feed the tracker the bytes TCP carried on each connection; bare and foreign frames add nothing |
| EndToEnd.FramesToRequests | mirror-agent/main.go:38-43 | from clean frames to output: for each connection, the parse of all the bytes TCP carried on it, with the sender's address as on the wire |
| EndToEnd.MessagesToRequests | mirror-agent/main.go:38-43 | messages a client pipelined come out exactly |
| EndToEnd.FramesSurvive | mirror-agent/main.go:38-43 | the process dies exactly if some connection carries bytes that make the parser panic |
| EndToEnd.RingKeepsOrder | mirror-agent/loader.go:146-182 | frames and reads in any order: unless something is dropped, the records read and those in the ring are those of all frames, in order |
| EndToEnd.TurnsToRequests | mirror-agent/main.go:38-43 | then, once the ring is empty, each connection's output is the parse of all the bytes TCP carried on it, and a panic means that some connection carries bytes that make the parser panic |
| EndToEnd.TakeTurn | mirror-agent/main.go:38-43 | one frame into the hook, or one record through loader and tracker, is one step of that run |
| EndToEnd.TakeTurns | mirror-agent/main.go:38-43 | hook, ring, read loop and tracker object, on frames and reads in any order, do what that run does |
| EndToEnd.MirrorFrames | mirror-agent/main.go:38-43 | so their output is the parse of the bytes TCP carried |
| Counters.PacketConservation | kernel/mirror.bpf.c:98-146 | in every reachable state, matched = in the hook + without payload + drops + in the ring + with the feeder + received, and received splits into undecided, empty, filtered and appended |
| Counters.MirrorConservation | mirror-agent/mirror.go:42-51 | in every interleaving, assembled = not yet routed + skipped + sent, and sent = in flight + 2xx + 4xx + 5xx + network errors + uncounted |
| Counters.OutcomesCounted | mirror-agent/mirror.go:107-150 | in every reachable state each outcome counter is the number of requests logged with a status of 200 to 299, 400 to 499, 500 and above, or with an error |
| Counters.RoutesCounted | mirror-agent/mirror.go:42-51 | skipped is the number of requests without a rule, and sent of those past their counting |
| Counters.PacketsCounted | kernel/mirror.bpf.c:98-146 | matched, drops, ring, filtered and received, each as a number of packets at certain points |
| Counters.RequestFate | mirror-agent/mirror.go:42-51 | in every schedule, a request without a rule is never sent, one with a rule is never skipped, and what is logged is the answer it got |
| Counters.RingIsFifo | mirror-agent/loader.go:146-151 | packets are taken from the ring in the order in which they got their slots, none lost or repeated |
| Counters.RoomDecides | kernel/mirror.bpf.c:120-127 | a packet overflows only while the ring is full |
| Counters.PrintedOvershoot | mirror-agent/stats.go:40-55 | with each counter loaded at its own point of any schedule, a line's outcomes never exceed what has been sent at the last load, its skipped and sent what has been assembled, and its drops what has been received |
| Counters.PrintedConsistentIff | mirror-agent/stats.go:40-55 | exactly when a line's outcomes stay within its sent, its skipped and sent within its assembled, and its drops within its received: if no more was counted between the loads than was outstanding at the first |
| Counters.QuietLineConsistent | mirror-agent/stats.go:47-51 | a line printed while nothing is being sent shows no more outcomes than sent |
| Counters.PrintedLineCanOvershoot | mirror-agent/stats.go:47-51 | a line can show more outcomes than sent |
| Mirror.BuildHeaders | mirror-agent/mirror.go:72-83 | the copy loops and the two marks compute the forwarded header |
| Mirror.ForwardedFields | mirror-agent/mirror.go:72-83 | none of the eight hop-by-hop fields in any letter case, every other field with all values in order, and the two marks whatever the client sent |
| Mirror.ParsedHeadersCanonical | mirror-agent/tracker.go:154-161 | parsed requests have the canonical header the copy relies on |
| Routes.RouteTable.LoadRoutes | mirror-agent/routes.go:31-48 | blank clears the table, invalid keeps it, a list replaces it |
| Routes.RouteTable.ResolveRoute | mirror-agent/routes.go:56-68 | without a table the path itself; with one, exactly if some prefix matches, the first such rule's destination and the rest of the path |
| Routes.DroppedIff | mirror-agent/routes.go:56-68 | a request is dropped exactly if there is a table and no rule matches |
| Routes.FirstMatchIs | mirror-agent/routes.go:61-66 | the first matching rule rewrites its prefix and keeps the rest of the path |
| Routes.LiveIff | mirror-agent/routes.go:61-66 | a rule can decide for some path exactly if no earlier prefix is a prefix of its own |
| Routes.DropShadowed | mirror-agent/routes.go:61-66 | dropping a shadowed rule changes nothing on any path |
| Routes.OrderImmaterial | mirror-agent/routes.go:61-66 | any permutation of pairwise incomparable rules resolves every path alike |
| Routes.OrderOfNested | mirror-agent/routes.go:61-66 | for nested prefixes, order is immaterial exactly if both rules rewrite alike |
| Ledger.SnapshotHeaders | ewp-sim/main.go:434-440 | the loop snapshots each response header's first value under its lower-cased name |
| Ledger.Recorder.constructor | ewp-sim/main.go:19-31 | an empty log and a threshold of 100 |
| Ledger.Recorder.Record | ewp-sim/main.go:416-459 | what one call counts and appends, and the trimming of the log |
| Ledger.Recorder.Configure | ewp-sim/main.go:358-377 | the threshold is set exactly if it is 0 to 100, and stays there |
| Ledger.WindowSlides | ewp-sim/main.go:453-456 | trimming after every entry is trimming once |
| Ledger.LedgerSound | ewp-sim/main.go:81-210 | in every interleaving of handlers the log is the last min(1000, n) of the n entries in lock order, and successes and entries never exceed mirrored requests |
| Ledger.LedgerCounts | ewp-sim/main.go:89-95 | what requests, mirrored, successes and entries count, as numbers of handlers at certain points |
| Ledger.EntriesHonest | ewp-sim/main.go:417-419 | every entry passed exactly if its status is 200 to 299, and only products and orders refuse |
| Ledger.MirroredWithinRequests | ewp-sim/main.go:385-410 | mirrored requests are no more than counted ones exactly if the echo handler took no more of them than the others counted without marking |
| Ledger.EchoNotCounted | ewp-sim/main.go:385-392 | one echoed mirrored request breaks it |
| Report.Aggregate | ewp-sim/main.go:239-261 | the aggregation loop computes the group-by of the log |
| Report.SameEndpointIff | ewp-sim/main.go:245-249 | two entries are grouped together exactly if method and path agree |
| Report.GroupCounts | ewp-sim/main.go:250-256 | an endpoint's total and passes are the numbers of its entries and of those that passed |
| Report.GroupLatency | ewp-sim/main.go:251 | and its latency is the sum of theirs |
| Report.GroupsAddUp | ewp-sim/main.go:239-261 | totals, passes and latencies add up over the endpoints to those of the log |
| Report.LatestValue | ewp-sim/main.go:257-260 | an observed header is the value of the latest entry carrying it |
| Report.Judge | ewp-sim/main.go:268-279 | the loop over endpoints judges each and the conjunction |
| Report.Validate | ewp-sim/main.go:216-296 | the whole report: figures per endpoint, overall average, verdict |
| Report.VerdictIff | ewp-sim/main.go:268-294 | ready exactly if there are entries and of every endpoint's entries at least the threshold percentage passed |
| Report.VerdictImpliesOverall | ewp-sim/main.go:263-294 | if every endpoint reaches the threshold, the overall rate does |
| Report.OverallDoesNotImplyVerdict | ewp-sim/main.go:263-294 | not the other way round |
| Report.ThresholdMonotone | ewp-sim/main.go:264-279 | lowering the threshold never revokes readiness |
| Report.ReadyAt100 | ewp-sim/main.go:263-294 | at 100, ready means entries and no failure |
| Report.AverageBetween | ewp-sim/main.go:271-284 | the truncated global average lies within any bounds that hold the endpoints' averages |

## Left out

- eBPF loading, qdisc and filter attachment, netlink and `Close`: foreign calls. The ring is a bounded first-in first-out sequence of records; its byte-level space accounting is a capacity in records.
- The HTTP exchange of `doSend` is an arbitrary status or error; time-outs, redirects, the 64 KB read limit and log texts are not modelled.
- TCP reordering, retransmission, connection reset and sequence numbers: the tracker ignores them, so in-order, once-only delivery is a hypothesis of the end-to-end theorems. Ethernet padding behind a payload is excluded there (`EndToEnd.CleanPadded`), and `Kernel.CaptureOfPadded` says what it does.
- JSON, the HTTP mux, response bodies, the note texts and number formatting. Route lists and thresholds are inputs.
- Pass rates are exact rationals; float64 rounding is not modelled.
- `TrimSpace` and `ToLower` are on ASCII; Unicode white space and case are not modelled.
- 64-bit wrap-around of counters, of the clock and of latency sums.
- Memory exhaustion: a body length that an int holds but the buffer has not reached only makes the parser wait, as in the source.
- EndToEnd.FramesToRequests: does not include reaps or ring drops; with reaps the meaning by epochs is Runs.RunMeaning.
- EndToEnd.MirrorFrames: a frame and the handling of a record are undivided there; the steps inside the hook and the feeder are those of Counters and Interleaving.
- Counters.Printed: leaves out the loads of the reaped and the parse-error counter, which that machine does not have.
- Report.Aggregate: merges an entry's response headers as one map operation instead of a loop over them.
- apigee-sim, the scripts, container files and flag parsing have no state worth proving.
