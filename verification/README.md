# server-naive in Dafny

A model of the tunnelling core of a NaiveProxy server, with proofs of what it promises:
the padded stream stack over HTTP/3, the bidirectional relay with its idle timer, the
connection registry, UDP over TCP, the way from a CONNECT target to a dialled address, and
the automatic connection limit. `dafny verify dfyconfig.toml` checks everything.

## How it is built

**Streams.** A stream half is a value with a poll function, because each layer owns the one
it wraps. What the outside world does is a finite script of events (not ready, some
progress, an error), arbitrary in every theorem, so a theorem about all scripts is one
about all schedules of partial progress. `Polls` states one law each for reading, writing,
flushing and shutting down. The law is proved of a scripted socket and of the HTTP/3
channel adapter (`Endpoints`), then of the padding transport on top of either (`Decoding`,
`Encoding`, joined in `Halves`). A layer above never needs to know what it wraps.

**Objects.** The source's stateful objects are classes with the source's fields and loops:
`H3StreamReader`, `H3StreamWriter`, `NaivePaddedTransport`, `DirectionalBuffer` (with its
in-place array) and `ConnectionManager`. Each method is proved equal to a pure function on
the object's view, and the theorems are about that function. The pure padding codec
(`Framing`) is a third, independent definition: it knows nothing of states or polls.

**Concurrency.** The connection registry and the two UDP loops are state machines over
their atomic steps, and the theorems are about every reachable state of every history.

| file | contents |
|---|---|
| `Polls.dfy` | poll results, views of a stream half, the four laws |
| `H3Stream.dfy` | reader and writer over the HTTP/3 channel |
| `Endpoints.dfy` | scripted sockets and HTTP/3 channels behind the laws |
| `Framing.dfy` | the pure padding codec |
| `Decoding.dfy`, `Encoding.dfy`, `PaddedTransport.dfy` | the padding transport |
| `Halves.dfy`, `RoundTrip.dfy` | plain and padded halves; two transports back to back |
| `Copying.dfy`, `DirectionalBuffer.dfy` | one relay direction |
| `Relay.dfy`, `RelayTask.dfy` | both directions, half-close, timer, statistics |
| `RelayCases.dfy` | inputs on which the relay finishes without having delivered everything |
| `Tunnel.dfy` | the whole stack over HTTP/3 |
| `Connections.dfy` | the connection registry under interleaving |
| `UotCodec.dfy`, `UotLoops.dfy` | UDP over TCP |
| `Routing.dfy` | filter, routers, dialling |
| `AutoLimit.dfy` | the automatic connection limit |

## What the code does that its promises do not say

- A read error met while the other side is blocked is taken for end of stream, so a relay
  can end Completed without having delivered everything. `RelayCases.CompletedShortRun` is
  such a run, and `Relay.CompletedShortIff` says of every completed run exactly when it
  happened.
- The HTTP/3 writer answers Ok to a shutdown even if the channel refused the FIN it had
  made room for, because the result of the send is dropped. `H3Stream.RefusedFinIsOk` shows
  it, and `H3Stream.WriterShutdownRefines` says exactly when FIN is sent.
- A frame is committed before its first write is attempted. If that write fails, the caller
  is told of an error but the frame is still in line and is sent by a later call.
  `RoundTrip.SentAfterError` is an input, `Encoding.PadWriteLogs` says exactly when a write
  does this, and `RoundTrip.WireDecodes` shows that the round trip is exact if and only if
  no write of the run did.
- With a buffer of size zero a direction carries nothing (`Relay.EmptyBufferCarriesNothing`
  for a poll, `Relay.EmptyBufferRun` for a run) and can still finish with Ok
  (`RelayCases.EmptyBufferLoses`).

## Model

| member | source | states |
|---|---|---|
| `H3Stream.ReaderRefines` | src/transport/quiche_stream.rs:44-92 | delivered, buffered and still queued body bytes up to FIN are conserved by every poll; empty bodies and datagrams never surface as end of stream; no answer exceeds the caller's buffer |
| `H3Stream.ReaderStopsAtFin` | src/transport/quiche_stream.rs:66-71 | once FIN was taken and the buffer is empty, every poll answers end of stream and takes nothing more from the channel |
| `H3Stream.ReaderHandsOut` | src/transport/quiche_stream.rs:50-64 | buffered bytes are handed out first, as many as fit, without touching the channel |
| `H3Stream.ReaderTakes` | src/transport/quiche_stream.rs:44-92 | otherwise a poll passes over exactly the leading datagrams and empty bodies and takes one frame more; Pending exactly if there is none yet, end of stream exactly on a FIN without bytes or a closed, empty channel |
| `H3Stream.H3StreamReader.constructor` | src/transport/quiche_stream.rs:34-42 | a new reader holds the channel, nothing buffered, no FIN |
| `H3Stream.H3StreamReader.PollRead` | src/transport/quiche_stream.rs:44-92 | the loop over the channel computes `ReaderPoll` |
| `H3Stream.WriterRefines` | src/transport/quiche_stream.rs:115-144 | a write enqueues exactly one frame with the whole buffer and no FIN, or nothing; Pending exactly if the channel has no room, Ok exactly if it takes the frame |
| `H3Stream.WriterShutdownRefines` | src/transport/quiche_stream.rs:153-166 | shutdown adds no bytes; a FIN frame is added, last, exactly when the granted slot accepts it; Pending exactly if the channel has no room, an error exactly if it is closed |
| `H3Stream.RefusedFinIsOk` | src/transport/quiche_stream.rs:153-166 | with a slot that refuses its frame, whatever was sent before, shutdown answers Ok and no FIN was sent |
| `H3Stream.H3StreamWriter.constructor` | src/transport/quiche_stream.rs:107-113 | a new writer keeps what was already sent and the channel as it is |
| `H3Stream.H3StreamWriter.PollWrite` | src/transport/quiche_stream.rs:115-144 | computes `WriterPoll` |
| `H3Stream.H3StreamWriter.PollShutdown` | src/transport/quiche_stream.rs:153-166 | computes `WriterShutdown` |
| `H3Stream.H3StreamWriter.PollFlush` | src/transport/quiche_stream.rs:146-151 | always Ok |
| `Framing.DecodeEncode` | src/transport/padding.rs:272-301 | decoding the encoding of any chunks, empty ones included, with any padding, gives back their bytes |
| `Framing.DecodeMonotone` | src/transport/padding.rs:139-222 | a prefix of the wire decodes to a prefix of the data |
| `Framing.NextOnWire` | src/transport/padding.rs:268-281 | what a further chunk adds to the wire: for the first eight a big-endian two-byte length, the padding length, data and padding, afterwards just the data |
| `Decoding.PadReadRefines` | src/transport/padding.rs:131-224 | for every state, schedule and buffer size: delivered bytes followed by what the new state will decode from the unread wire are what the old state would decode; the state invariant is kept; an empty answer means that the inner stream ended; Pending and errors come from the inner stream |
| `Decoding.WithinOneFrame` | src/transport/padding.rs:139-222 | no answer crosses a frame boundary: it is what the inner stream gives when asked for as much as the rest of the frame and the buffer allow, and that rest shrinks by exactly as much; or it is raw |
| `PaddedTransport.NaivePaddedTransport.constructor` | src/transport/padding.rs:107-121 | a new transport is a fresh decoder and a fresh encoder |
| `PaddedTransport.NaivePaddedTransport.PollRead` | src/transport/padding.rs:131-224 | the state machine over the fields, header array included, computes `PadRead` and leaves the write side alone; it ends by frames, padding and header bytes left |
| `Encoding.DrainMoves` | src/transport/padding.rs:244-265 | draining moves a prefix of the pending bytes to the wire, in order, for every partial-write schedule; it reports done exactly with nothing left, Pending only with a waker kept |
| `Encoding.PadWriteLogs` | src/transport/padding.rs:234-302 | which chunk each answer commits: everything up to 65535 bytes while framing, what the inner stream took afterwards, with nothing older pending; while framing, Pending only because something older could not be drained; an error commits the frame unannounced if and only if framing is on and everything older was drained |
| `Encoding.PadWriteRefines` | src/transport/padding.rs:234-302 | wire followed by pending is the encoding of the committed chunks, with one frame for each of the first eight; the write law holds |
| `Encoding.PadFlushRefines` | src/transport/padding.rs:304-330 | flushing keeps the invariant and the accepted bytes; done means that nothing is pending and the inner stream was flushed |
| `Encoding.PadShutdownRefines` | src/transport/padding.rs:332-337 | the inner shutdown is reached only with nothing pending and the inner stream flushed; done means the wire is the whole encoding |
| `PaddedTransport.NaivePaddedTransport.DrainPending` | src/transport/padding.rs:244-265 | the loop over the pending buffer and its offset computes `Drain` |
| `PaddedTransport.NaivePaddedTransport.PollWrite` | src/transport/padding.rs:234-302 | computes `PadWrite` and leaves the read side alone |
| `PaddedTransport.NaivePaddedTransport.PollFlush` | src/transport/padding.rs:304-330 | computes `PadFlush` |
| `PaddedTransport.NaivePaddedTransport.PollShutdown` | src/transport/padding.rs:332-337 | computes `PadShutdown` |
| `Halves.ReaderLaw` | src/transport/padding.rs:131-224 | plain and padded readers over sockets or HTTP/3 obey one reading law |
| `Halves.WriterWriteLaw` | src/transport/padding.rs:234-302 | plain and padded writers obey one writing law: accepted bytes are appended in order, Pending only with a waker kept, an error or an empty answer exactly if a fault is counted |
| `Halves.WriterFlushLaw` | src/transport/padding.rs:304-330 | the same for flush |
| `Halves.WriterShutdownLaw` | src/transport/padding.rs:332-337 | the same for shutdown: recorded once when it completes, and when it went well nothing was left behind and FIN came last |
| `RoundTrip.WireDecodes` | src/transport/padding.rs:234-337 | after any sequence of writes, flushes and shutdowns, failed ones included, the wire and the pending tail are the encoding of one chunk per write answered Ok, and of the unannounced ones, the first eight framed, and decode to their data; that is what was answered Ok if and only if no framed write failed on the first offer of its frame |
| `RoundTrip.SentAfterError` | src/transport/padding.rs:284-301 | a write answered with an error whose byte a later flush sends |
| `RoundTrip.DeliveredIsPrefix` | src/transport/padding.rs:131-337 | whatever part of the wire has arrived, under any chunking and buffer sizes, the reader has delivered a prefix of the committed data, and of the accepted bytes if no unannounced frame went out |
| `RoundTrip.ShutdownDeliversAll` | src/transport/padding.rs:131-337 | after a successful shutdown, a reader that saw the end has delivered exactly the accepted bytes if and only if no unannounced frame went out |
| `DirectionalBuffers.DirectionalBuffer.constructor` | src/core/relay.rs:72-88 | a new direction is empty and open |
| `DirectionalBuffers.DirectionalBuffer.PollCopy` | src/core/relay.rs:105-179 | the nested loops over the in-place buffer compute `Copying.PollCopy` |
| `Copying.PollCopyLaw` | src/core/relay.rs:105-179 | for every reader, writer and schedule: accepted, held and unread bytes are conserved in order, also through the read while blocked and the reset; `amt` counts the accepted bytes; shutdown completes once, only when drained, never when suppressed; Pending means that the awaited stream kept the waker; an empty direction has flushed or left a waker; an error is answered exactly if a stream failed other than in a read while blocked or in the last shutdown; a finished direction is inert |
| `Copying.EndedTooEarlyIff` | src/core/relay.rs:132-151 | of one read while the writer is blocked: it marks a stream with bytes left as ended if and only if it was answered with an error |
| `Copying.SwallowedReadError` | src/core/relay.rs:144-146 | an input on which a direction finishes with Ok although its reader failed with bytes left |
| `Relay.PollLaw` | src/core/relay.rs:218-262 | the law of both directions holds across each poll, however it ends |
| `Relay.PollOutcome` | src/core/relay.rs:222-260 | what each answer means: Failed exactly if a stream failed in a way that has to end the relay, a failed upload leaving the download alone; otherwise Completed exactly if both directions are finished, and only then the timeout exactly if the deadline has come |
| `Relay.RunConserves` | src/core/relay.rs:183-274 | in every state of every run the counters are the accepted lengths, and accepted, held and unread bytes are what the readers had to offer |
| `Relay.CompletedMeansDrained` | src/core/relay.rs:222-253 | Completed means that all bytes read were accepted, each unsuppressed writer was shut down once, and each reader that did not fail is exhausted |
| `Relay.CompletedShortIff` | src/core/relay.rs:132-151 | a completed run left bytes of a reader behind if and only if in some poll that reader failed with bytes left; for each side |
| `RelayCases.CompletedShortRun` | src/core/relay.rs:144-146 | a run that ends Completed with two of three client bytes undelivered |
| `Relay.ShutdownIsLast` | src/core/relay.rs:111-167 | over whole runs: a completed shutdown implies end of stream, nothing held and no suppression, happens once, and the writer is unchanged in every later state |
| `Relay.RunningHasWaker` | src/core/relay.rs:218-262 | a relay that waits left, for each unfinished direction, a waker with the stream that direction awaits, and its deadline lies ahead |
| `Relay.TimeoutIffQuiet` | src/core/relay.rs:212-260 | a run in whose last poll no stream broke ends in the idle timeout exactly when neither direction moved a byte for a whole timeout and it did not complete at the same poll |
| `Relay.ProgressPreventsTimeout` | src/core/relay.rs:242-258 | progress within the timeout before a poll rules out a timeout at that poll, half-closed or not |
| `Relay.EmptyBufferCarriesNothing` | src/core/relay.rs:169-177 | with an empty buffer a poll neither reads nor writes a byte, whatever it answers |
| `Relay.EmptyBufferRun` | src/core/relay.rs:183-262 | over whole runs such a direction has delivered everything if and only if there was nothing to deliver |
| `RelayCases.EmptyBufferLoses` | src/core/relay.rs:161-177 | such a direction finishing with Ok with a byte left behind |
| `RelayTask.PollOnce` | src/core/relay.rs:218-262 | the poll closure over two buffer objects computes `Relay.Poll` |
| `RelayTask.CopyBidirectionalWithStats` | src/core/relay.rs:183-290 | the polls form a run; Completed, timeout and error all credit the collector with exactly the bytes each writer accepted; Completed has shut the client side down once, and the origin side once unless suppressed |
| `RelayTask.InitialIsTimed` | src/core/relay.rs:212-214 | the task times out only after a whole timeout from its start without a byte |
| `Tunnel.UploadIsExact` | src/handler.rs:341-346 | over HTTP/3, a completed relay has sent the origin exactly the decoding of the inbound bodies up to FIN or close |
| `Tunnel.UploadIsPrefix` | src/handler.rs:341-346 | at any moment of any run the origin has received a prefix of that |
| `Tunnel.DownloadIsExact` | src/handler.rs:341-346 | if the relay completed and the client-side shutdown went well, the outbound bodies are an encoding of exactly the bytes read from the origin, which are all it had if and only if no poll swallowed a failure of the origin with bytes left; at most one FIN, and exactly one, last, if the channel takes what it makes room for |
| `Tunnel.DownloadIsPrefix` | src/handler.rs:341-346 | at any moment of any run that has not failed, the outbound bodies decode to a prefix of the origin's bytes |
| `Connections.AlwaysConsistent` | src/core/connection.rs:52-110 | every reachable state, under every interleaving of the atomic steps, satisfies the invariant linking counter, primary map, index and kicks |
| `Connections.IndexAgrees` | src/core/connection.rs:52-88 | index and primary map differ only on ids whose own register or unregister is between its two steps; no user has an empty entry |
| `Connections.SettledMeansInverse` | src/core/connection.rs:52-88 | at rest the two maps are exact inverses |
| `Connections.OwnersAreForever` | src/core/connection.rs:52-77 | ids are never reused, owners never change, cancellations are never undone |
| `Connections.CancelledIff` | src/core/connection.rs:52-110 | in every history a token is cancelled exactly if the whole registry was, or a kick visited the connection while present; registering and unregistering cancel nothing |
| `Connections.OnlyOwnKicksCancel` | src/core/connection.rs:90-101 | unless the whole registry was cancelled, a cancelled connection was visited by a kick of its own user |
| `Connections.KickSparesOthers` | src/core/connection.rs:90-101 | a kick cancels only connections of its own user |
| `Connections.KickHoldsItsEntry` | src/core/connection.rs:90-101 | from taking the user's entry to its end, a kick works on the entry as it was taken |
| `Connections.KickIsExact` | src/core/connection.rs:90-101 | when a kick ends, every live connection of the user is cancelled and what it missed is leaving; if none is on its way in or out it has hit exactly the user's connections |
| `Connections.KickHistory` | src/core/connection.rs:90-101 | from start to end of a kick in any history: each connection of the user that was in the index at the start is visited, and is counted and cancelled for good if and only if it was in the primary map at that visit |
| `Connections.ConnectionManager.constructor` | src/core/connection.rs:44-50 | a new manager is empty and counts from one |
| `Connections.ConnectionManager.Register` | src/core/connection.rs:52-77 | a whole registration, its new state in full |
| `Connections.ConnectionManager.Unregister` | src/core/connection.rs:79-88 | a whole unregistration: cancels nothing, unknown ids change nothing, the last id of a user removes the entry |
| `Connections.ConnectionManager.KickUser` | src/core/connection.rs:90-101 | cancels and counts exactly the connections of the user |
| `Connections.ConnectionManager.CancelAll` | src/core/connection.rs:103-110 | cancels and counts every connection |
| `Connections.RegisterSteps` | src/core/connection.rs:52-77 | an uninterrupted registration is the three atomic steps of the protocol in a row |
| `Connections.RegisterKeepsInv` | src/handler.rs:364-368 | an uninterrupted registration takes a consistent state at rest to one |
| `Connections.UnregisterKeepsInv` | src/handler.rs:364-368 | the same for an uninterrupted unregistration |
| `UotCodec.ReadAddrExact` | src/uot.rs:62-138 | for both tag sets (section 5 of RFC 1928, and the per-packet one), the parser accepts exactly the encodings of valid endpoints and consumes exactly one |
| `UotCodec.ReadPacketExact` | src/uot.rs:94-153 | the same for packets in both modes; payloads up to 65535 bytes survive the sixteen-bit length |
| `UotCodec.PrefixFree` | src/uot.rs:141-153 | no beginning of an encoded packet parses as a packet |
| `UotCodec.PacketsRoundTrip` | src/uot.rs:94-153 | parsing the concatenated encodings of any packets gives them back, whatever incomplete bytes follow |
| `UotCodec.InputLoop` | src/uot.rs:239-278 | stopped after any number of turns it has sent a prefix of, left alone exactly, the non-empty packets in order up to a bad packet or unresolved peer |
| `UotCodec.ClientPacketsAreSent` | src/uot.rs:239-278 | what a client encodes is what the loop sends |
| `UotCodec.DeliveredExactly` | src/uot.rs:243-262 | datagram by datagram: one for each non-empty packet, in order up to an unresolved peer, with its data, to what its peer resolves to or the connected peer |
| `UotCodec.BytesOnTheWire` | src/uot.rs:62-153 | the exact bytes of sample packets and request addresses |
| `UotLoops.AlwaysInv` | src/uot.rs:233-320 | in every reachable state the inner token is cancelled exactly if one of the loops has ended, and the write half is shut down at most once |
| `UotLoops.ClientSeesWholePackets` | src/uot.rs:284-311 | at every moment the client can parse exactly the packets whose writing finished; without a write failure nothing is left over between packets |
| `UotLoops.SendsWhatItReceives` | src/uot.rs:287-302 | those are the packets received, in order: all of them between packets, all but the one being written, or all but one cut off by a write failure |
| `UotLoops.StopsForAReason` | src/uot.rs:264-311 | no loop ends and no token is cancelled without a kick or a failure |
| `UotLoops.NothingAfterShutdown` | src/uot.rs:313-317 | nothing is written after the shutdown and there is no second one |
| `UotLoops.JoinedMeansShutDown` | src/uot.rs:320 | when both loops were joined, the write half was shut down exactly once |
| `UotLoops.CanAlwaysFinish` | src/uot.rs:264-320 | after a signal some enabled step always brings the join closer |
| `Routing.Filter4IsBlocks` | src/core/ip_filter.rs:5-15 | the octet and mask tests are exactly ten CIDR blocks |
| `Routing.Filter6IsBlocks` | src/core/ip_filter.rs:17-27 | the segment mask tests are exactly loopback, fc00::/7 and fe80::/10 |
| `Routing.CheckPrivateAndResolve` | src/core/dns.rs:55-95 | the loop with its early return computes `CheckPrivate`: private if any address is, otherwise all addresses in order |
| `Routing.ResolveInfoFromIps` | src/handler.rs:516-526 | the first address of each family, none exactly if the family does not occur |
| `Routing.ConnectIpList` | src/handler.rs:640-654 | tries addresses in order up to the first that answers, and fails only if none does |
| `Routing.DialledAddressesAreChecked` | src/handler.rs:530-678 | with blocking on, for both routers and every target, answer, engine match and second lookup: each address dialled on the direct path belongs to the target as written or as first resolved, and is not private |
| `Routing.DialsEnough` | src/handler.rs:530-678 | with blocking on, a target not refused is dialled on its own port: all its addresses in order up to the first that answers, or for a custom dialler the first of each family it has |
| `Routing.RefusedExactly` | src/acl.rs:627-692 | exactly which targets either router refuses: unresolved names are refused on the direct path and still handed to a proxy |
| `Routing.DecidedExactly` | src/acl.rs:627-692 | the whole decision of both routers, with and without blocking: which addresses and which dialler a direct decision carries, which handler a proxied one |
| `Routing.OnlyWithBlocking` | src/core/hooks.rs:95-99 | without blocking, for a name on the direct path of either router, the lookup at connect time alone decides what is dialled, whatever it answers; a custom dialler is handed the name |
| `AutoLimit.MoreNeverLowers` | src/config_auto.rs:37-64 | the limit is monotone in processors, memory and descriptors, saturation included |
| `AutoLimit.LimitFits` | src/config_auto.rs:37-64 | unless a resource has no room at all and the limit is the floor of one, that many sessions fit into every resource |
| `AutoLimit.LimitIsLargest` | src/config_auto.rs:37-64 | a number of sessions is within the limit exactly if it is at most one or fits into every resource, as far as 64-bit products can tell |
| `AutoLimit.LimitingIsSmallest` | src/config_auto.rs:54-95 | the named resource has the smallest cap, the first of equals, and a fixed value exceeds a cap exactly if it exceeds that one |

## Left out

- Accept loops, TLS and QUIC setup, signals, configuration, logging, the panel interface: behaviour of libraries, or thin delegation.
- The pingora session bridge (HTTP/2): its flow control is not visible in the repository; the stack is proved over HTTP/3 and over any socket.
- Access-control rule parsing and matching: the match is an arbitrary input of every routing theorem.
- DNS, address text formats and UTF-8 validity: parameters. The UDP branch is not part of the dialling theorem.
- What a custom dialler does with the addresses it is given is not part of this repository: it is taken to dial the addresses handed to it, or the target itself if there are none.
- The padding generator and the padding header text: pad lengths and bytes are arbitrary.
- The caller's read buffer is modelled by the bytes put into it, not filled in place; stream halves are values, as the transport owns them.
- Streams that deliver more after end of stream, and inner streams that report success without having done the work, are not modelled.
- Byte counters and connection ids are unbounded rather than 64 bits wide.
- Time is a natural number per poll; the timer fires at the first poll at or after its deadline, and the rounding of timer ticks is not modelled.
- Connections: that a kick sees one unchanged entry rests on the index guard that the source holds during the loop, and that ids are unregistered once, after their registration, on the scope guard in src/handler.rs.
- Connections.ConnectionManager.CancelAll: proved for an uninterrupted call; under interleaving, cancellation is one step per connection.
- Tunnel.DownloadIsExact: assumes that the client-side shutdown went well, because the relay drops its error and nothing is promised about the wire then.
- Relay.CompletedMeansDrained: assumes a buffer of at least one byte; for none, see `Relay.EmptyBufferCarriesNothing`.
- RelayTask.CopyBidirectionalWithStats: a kicked connection drops the relay before it credits anything; that path is not modelled.
- Statistics of the UDP loops, and the shutdown with a time limit after a kick, are not modelled.
- Liveness that depends on the peer: progress is stated relative to the script of events.
