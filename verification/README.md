# rs_srp: verified model of the tunnel protocols

This Dafny project models the parts of rs_srp whose correctness depends on long
runs rather than on single calls, and proves what they promise:

- `Bytes`, `Io`: big-endian prefixes, chunk lists, and `Pipe`, one direction of a
  byte stream. Any poll of a pipe may be short, Pending, failed or at end of
  stream; `ReadStep` and `WriteStep` are all that a layer above relies on.
- `Records`: Noise transport records. The AEAD is a pair of functions with three
  laws (the tag adds 16 bytes, opening undoes sealing under the same nonce,
  shorter inputs do not open); nonce 2^64 - 1 is reserved, as section 5.1 of the
  Noise Protocol Framework says. `Parse` is the one-shot meaning of a byte string.
- `NoiseStream`: the session stream with its two poll state machines, field by
  field. `committed` are the chunks sealed so far; a second drain that fails
  leaves its chunk committed although the write reports an error, so the
  theorems speak of committed chunks, and of accepted bytes where no write failed.
- `Session`, `Handshake`: two streams back to back, whole runs of polls, write-all
  loops, and the handshake messages in front of the records.
- `WsStream`: the WebSocket adapter, and that it realises the pipe contract.
- `Proto`, `UdpPath`: control frames and datagrams, and the path of a UDP session
  through all layers.
- `MuxDriver`: the task that owns the yamux connection, against an arbitrary one.
- `UdpDemux`, `UdpRelay`: the loop that sorts datagrams by source into sessions, and
  the whole way of a datagram from the public port to the local service.
- `Metrics`, `Counting`: the traffic registry with traffic going on between any
  two loads of a walk, 64-bit wrap-around, and per-proxy accounting.
- `Control`, `ControlLedger`, `Heartbeat`: the control protocol as client times server,
  its exact books over whole runs, and its timing.
- `PortRange`, `Config`, `Dashboard`: port ranges, validation, hot reload and the
  gate on public ports.

Choices of the environment (what a poll returns, when a session ends, whether a
bind works) are nondeterministic, or parameters and schedules of a `Run` method
that executes whole histories and is proved for all of them.

Where a promise turned out to be false in general, lemmas give its exact
condition and a run that breaks it: ports after a tunnel that ends by a failed
write (`PortsAfterLeaving`, `LeftOpen`), overlapping dashboard edits
(`UndoneExactly`, `NothingLostExactly`, `LostUpsert`, `LostDelete`), samples
whose totals wrap (`SamplesInOrderExactly`, `SamplesGoDown`), round trips above
45 s (`TripsExactly`, `SlowerPongsMayTrip`), and the server's patience, which
one-way delays under 30 s alone do not satisfy (`ServerSurvives`,
`FirstWaitDecides`, `OneWayBoundIsNotEnough`). A dashboard reader that loads a
proxy's counters one after the other may see more active connections than
connections; `ReaderSees` bounds the difference. The 16-bit length casts of
handshake and records, by contrast, are lossless for every message the code
sends: they are cut from a 65535-byte scratch buffer (`HsRoundTrip`) and from
chunks of at most 65519 bytes (`CastIsLossless`).

## Model

| member | source | states |
|---|---|---|
| `Records.ParseResume` | crates/srp-core/src/session.rs:171-263 | decoding may be suspended after any byte and resumed from the leftover under the next nonce, with the same result as in one go |
| `Records.ParseOfWirePrefix` | crates/srp-core/src/session.rs:166-264 | any prefix of an honest wire decodes to the first chunks without an error; nothing is left over exactly on a record boundary; the whole wire decodes to all chunks |
| `Records.CastIsLossless` | crates/srp-core/src/session.rs:280-287 | the length cast in the record writer loses nothing exactly for chunks of at most 65519 bytes, the ones it makes |
| `Records.FrameOnTheWire` | crates/srp-core/src/session.rs:284-289 | a record is the length of the sealed chunk, 16 bytes of tag included, as two bytes most significant first, and the sealed chunk |
| `NoiseSession.NoiseStream.constructor` | crates/srp-core/src/session.rs:131-146 | a fresh stream with nothing committed, decoding from where the inner stream stands |
| `NoiseSession.NoiseStream.PollDrain` | crates/srp-core/src/session.rs:150-162 | bytes on the wire followed by buffered bytes stay the records of the committed chunks, over any partial writes; ready only when all is on the wire, Pending only when the inner write was |
| `NoiseSession.NoiseStream.PollWrite` | crates/srp-core/src/session.rs:268-297 | Pending commits nothing; Ready commits exactly the reported bytes, at most 65519, as one record; a failure commits nothing or that one chunk, which then stays buffered; the error says what happened below |
| `NoiseSession.NoiseStream.PollFlush` | crates/srp-core/src/session.rs:299-303 | when ready, the wire holds exactly the records of all committed chunks and the stream below has been flushed with all of them; Pending and failures only come from below |
| `NoiseSession.NoiseStream.PollShutdown` | crates/srp-core/src/session.rs:305-309 | the stream below is shut down only after every record is on it, and flushed when that is ready; Pending and failures only come from below |
| `NoiseSession.NoiseStream.ReadHeader` | crates/srp-core/src/session.rs:189-221 | the header arm restores its state on Pending and error, keeps every byte it took, and tells a clean end of stream from one inside the header |
| `NoiseSession.NoiseStream.ReadBody` | crates/srp-core/src/session.rs:222-261 | the body arm likewise; a stream that ends in a body is an unexpected end |
| `NoiseSession.NoiseStream.OpenRecord` | crates/srp-core/src/session.rs:242-257 | a whole record is opened under the next receive nonce, never the reserved one; the nonce goes up by one on success and stays on failure; failing to open is exactly what the parser calls bad |
| `NoiseSession.NoiseStream.PollRead` | crates/srp-core/src/session.rs:166-264 | for any partial reads, every outcome is the one the one-shot parse of all bytes taken calls for: end of stream exactly on a record boundary, unexpected end exactly inside a record, invalid data exactly for a record that does not open, Pending and errors only from below; any wire content makes the loop end, and the stored state always misses some byte of its header or body |
| `Session.ReaderRefinesParser` | crates/srp-core/src/session.rs:109-129 | between polls, delivered bytes plus buffered plaintext are the decoding of all bytes taken, the leftover is what the read state holds, the nonce counts the records |
| `Session.DeliveredIsPrefixOfCommitted` | crates/srp-core/src/session.rs:165-310 | the receiver has delivered a prefix of what the sender committed, and all of it once both are drained |
| `Session.HonestWireOpens` | crates/srp-core/src/session.rs:246-254 | on a pipe that carries only the sender's records, no record ever fails to open |
| `Session.SplitCarriesOnce` | crates/srp-core/src/session.rs:280-296 | a buffer is cut into ceil(length / 65519) chunks that carry every byte once and in order |
| `Session.WriteAll` | crates/srp-core/src/session.rs:268-297 | a write-all loop commits exactly those chunks, one per poll that is not suspended; if it stops early the chunks committed and those of the rest are together still those of the buffer, but that a failed write may leave its own chunk committed; it fails only for a cause below or for want of nonces |
| `Session.Play` | crates/srp-core/src/session.rs:165-310 | two ends in any schedule of writes, flushes and reads, each one carried out and recorded with its outcome: the transcripts stay true of the ends, and bytes read are all bytes put on their way once a direction is drained, failed writes or not |
| `Session.Run` | crates/srp-core/src/session.rs:165-310 | over every such schedule and every behaviour of the pipes, failing and ending ones included: each write puts on its way what it reported, or after an error nothing or exactly one chunk; bytes read are always a prefix of those bytes, equal once drained; without failed writes they are the bytes reported; no record ever fails to open |
| `Handshake.WriteHs` | crates/srp-core/src/session.rs:94-99 | the message goes out behind its length cast to 16 bits, and is flushed |
| `Handshake.HsFrameOnTheWire` | crates/srp-core/src/session.rs:95 | that length is two bytes, most significant first |
| `Handshake.ReadHs` | crates/srp-core/src/session.rs:101-107 | exactly one length-prefixed message is consumed |
| `Handshake.HsRoundTrip` | crates/srp-core/src/session.rs:94-107 | a message is read back as written, with the reader right behind it, exactly if it has at most 65535 bytes, as every message out of the 65535-byte scratch buffer has |
| `Handshake.Establish` | crates/srp-core/src/session.rs:24-91 | after both handshake messages, and with early records already sent by the server, the two streams are linked from the first record in both directions; only an error or end of one of the two pipes makes it fail |
| `WsAdapter.WsStream.PollRead` | crates/srp-core/src/wss.rs:40-68 | reads are the next bytes of all binary payloads whatever the message boundaries; other messages and empty ones never look like an end, only Close and the end of the connection do, and only a broken connection is an error |
| `WsAdapter.WsStream.PollWrite` | crates/srp-core/src/wss.rs:72-87 | a ready write sends the whole buffer as one binary message, anything else sends nothing and is what the connection said |
| `WsAdapter.WsStream.PollFlush` | crates/srp-core/src/wss.rs:89-95 | ready only when every message sent has been pushed out; Pending and failures are what the connection said |
| `WsAdapter.WriteVia` | crates/srp-core/src/wss.rs:71-87 | writing through a WebSocket is a behaviour of the byte pipe under the Noise session |
| `WsAdapter.FlushVia` | crates/srp-core/src/wss.rs:89-95 | so is flushing: a flushed WebSocket is a flushed byte pipe |
| `WsAdapter.ReadVia` | crates/srp-core/src/wss.rs:39-69 | so is reading at the other end |
| `Proto.PrefixedOnTheWire` | crates/srp-core/src/proto.rs:107-108 | a frame is the length as four bytes, most significant first, and the payload |
| `Bytes.BigEndianOrder` | crates/srp-core/src/proto.rs:107 | most significant first: of two byte strings of one length, the one smaller at the first difference stands for the smaller number |
| `Bytes.U32IsBigEndian` | crates/srp-core/src/proto.rs:122 | writers and readers agree with that on four bytes |
| `Bytes.U16IsBigEndian` | crates/srp-core/src/session.rs:101-104 | and on two |
| `Proto.WriteDatagram` | crates/srp-core/src/proto.rs:100-111 | over 64 KiB nothing is written; otherwise the prefixed datagram, flushed, or a prefix of it if the stream fails or takes nothing |
| `Proto.ReadDatagram` | crates/srp-core/src/proto.rs:114-131 | on success the bytes taken are exactly the frame of the datagram returned; on an error they are part of a frame, with the end or error of the stream behind it, or just an oversized prefix |
| `Proto.WriteHead` | crates/srp-core/src/proto.rs:58-71 | the same for an encoded message |
| `Proto.ReadHead` | crates/srp-core/src/proto.rs:74-90 | the bytes taken are one whole frame that decodes to the head returned or does not decode, or the same errors as for datagrams |
| `Proto.UnframeOfPrefix` | crates/srp-core/src/proto.rs:96-131 | any part of a datagram stream reads back as the first datagrams with their boundaries, empty ones included, and the whole as all of them |
| `UdpPath.ReadOfPrefix` | crates/rs_srpc/src/client.rs:291-317 | a data substream reads as its head and then datagrams, none before the head |
| `UdpPath.EndToEnd` | crates/rs_srpd/src/server.rs:569-582 | through any multiplexer that takes nothing back, any cutting into records and any WebSocket segmentation, the far end reads the same head and the first datagrams, and all of them when all has arrived |
| `UdpPath.OverSession` | crates/rs_srpd/src/server.rs:569-582 | the same for two live ends of a session in any state polls may have brought them to, other substreams in between, and any part of the substream read so far |
| `UdpPath.TunnelToLocal` | crates/rs_srpc/src/client.rs:341-347 | the relay loop hands on every datagram in the bytes it took, in order, until the socket refuses one, which alone is lost, a prefix is oversized, or the substream ends or fails |
| `MuxDriver.Driver.Open` | crates/srp-core/src/mux.rs:61-68 | a request queues behind all earlier ones, or fails at once when the task is gone |
| `MuxDriver.Driver.Poll` | crates/srp-core/src/mux.rs:87-125 | the replies are the answers of the connection, one for one and in the order of the requests, one in flight; inbound substreams are forwarded once each in order while there is somebody to take them; a suspended loop has just seen Pending from the inbound side and from the outbound side or the empty queue, so no wakeup is lost |
| `MuxDriver.Driver.Finish` | crates/srp-core/src/mux.rs:126-130 | when the task ends, every unanswered request gets a broken pipe |
| `MuxDriver.Run` | crates/srp-core/src/mux.rs:78-130 | over every run and connection, each request has one reply or none yet: the i-th answer of the connection for request i, substream or refusal, or a broken pipe, and that only once the task has ended, which takes a dropped handle or a connection that is over; right after a poll of a running task every request has its reply or the connection keeps one waiting; when the task is gone all have one; no two requests got the same substream |
| `UdpDemux.UdpProxy.Receive` | crates/rs_srpd/src/server.rs:487-506 | a datagram, whole whatever UDP can carry, is queued to the live session of its source, or kept with its stale entry removed while a substream is opened |
| `UdpDemux.NothingIsCut` | crates/rs_srpd/src/server.rs:42-43 | the buffer holds any datagram with the 65527 bytes of payload that UDP allows, and what it holds is never too large for a substream |
| `UdpDemux.UdpProxy.Opened` | crates/rs_srpd/src/server.rs:507-527 | the new session starts with the datagram that caused it, recovered or not |
| `UdpDemux.UdpProxy.OpenFailed` | crates/rs_srpd/src/server.rs:507-513 | only this datagram is dropped |
| `UdpDemux.UdpProxy.Write` | crates/rs_srpd/src/server.rs:569-582 | a session's substream holds the head and its first queued datagrams, cut inside a frame only once the session is dead; a head that is too large ends the session with nothing written |
| `UdpDemux.UdpProxy.SessionReads` | crates/rs_srpd/src/server.rs:532-582 | whatever part of a session's substream is read back is the head and the first datagrams of that source's queue |
| `UdpDemux.Run` | crates/rs_srpd/src/server.rs:479-529 | over every interleaving, each datagram that came in is taken whole and in order, or waits in the socket while a substream is being opened; each one taken is queued once to its own source, in order, but for the one waiting and for those whose own open failed, which alone are dropped; a finished open settles the datagram that waits for it; per source, the queues of its sessions together are exactly the kept ones; no source has two live receivers |
| `UdpRelay.Serve` | crates/rs_srpc/src/client.rs:291-347 | the layers joined: what the client hands to the local service for a session is what it reads from the session's substream, behind the head the server wrote, and continues the kept datagrams of that source where its earlier sessions' queues ended; all of the queue once all has arrived |
| `UdpRelay.QueuesInOrder` | crates/rs_srpd/src/server.rs:487-527 | each session's queue is the next stretch of its source's datagrams |
| `Metrics.Bank.Add` | crates/rs_srpd/src/metrics.rs:35-45 | an addition keeps the books: retired, live and late bytes are all bytes counted |
| `Metrics.Registry.RegisterTunnel` | crates/rs_srpd/src/metrics.rs:132-147 | ids are handed out in order and never again |
| `Metrics.Registry.RegisterProxy` | crates/rs_srpd/src/metrics.rs:164-182 | fresh zero counters, entered only if the tunnel is still there, without moving the totals |
| `Metrics.Registry.UnregisterTunnel` | crates/rs_srpd/src/metrics.rs:150-161 | with traffic before every load, the tunnel's bytes move to the retired totals, none are lost but those added after their counter was read, and the totals never go down |
| `Metrics.Registry.Totals` | crates/rs_srpd/src/metrics.rs:185-195 | with traffic on both kinds of counters before and after every load, the result is, wrapped to 64 bits, a value between the registry total at lock and at release |
| `Metrics.Registry.TakeSample` | crates/rs_srpd/src/metrics.rs:227-242 | the sample shows such totals, the registry remembers the walk, and the history is the newest 2048 entries after it, whatever was loaded |
| `Metrics.Run` | crates/rs_srpd/src/metrics.rs:132-242 | over every run the tunnels and the number of their proxies are what the moves registered, and there is one sample per poll, each showing, wrapped, a total between those of the registry at lock and at release of its walk; these totals never go down from one walk to the next and never exceed the bytes moved through the registry's counters; the samples are themselves in order while those are below 2^64; the history is the newest 2048 of loaded entries and samples |
| `Metrics.SamplesInOrderExactly` | crates/rs_srpd/src/metrics.rs:65-68 | two samples of a history with less than 2^64 bytes between them are in order exactly if no 64-bit wrap lies between them |
| `Metrics.SamplesGoDown` | crates/rs_srpd/src/metrics.rs:184-195 | a registry with one proxy that receives 2^64 - 1 bytes, is sampled, receives one more and is sampled again shows 2^64 - 1 and then 0 |
| `Counting.Counters.CountConn` | crates/rs_srpd/src/metrics.rs:267-268 | first addition of a guard: it is counted and not yet alive |
| `Counting.Counters.CountActive` | crates/rs_srpd/src/metrics.rs:269-271 | second addition, whatever other connections have done in between: the guard is alive |
| `Counting.Counters.Drop` | crates/rs_srpd/src/metrics.rs:274-278 | dropping a live guard takes one from a positive `active`, below 2^64 guards |
| `Counting.CountingStream.PollRead` | crates/rs_srpd/src/metrics.rs:293-309 | on counters shared with any other connections, the bytes counted go up by exactly the bytes delivered, over Pending, short and failing polls |
| `Counting.CountingStream.PollWrite` | crates/rs_srpd/src/metrics.rs:312-326 | likewise by exactly the bytes accepted |
| `Counting.Run` | crates/rs_srpd/src/metrics.rs:263-326 | over every interleaving of all connections of a proxy, step by atomic step: each stream has delivered and accepted what its polls reported, `bytes_in` and `bytes_out` show the sums over all streams, but for polls not yet finished, `active` shows the live guards, and never exceeds `conns` below 2^64 guards |
| `Counting.ReaderSees` | crates/rs_srpd/src/metrics.rs:216-219 | a reader that loads `conns` and later `active` may see more active connections than connections, but by no more than were begun in between |
| `Counting.ReaderMaySeeMore` | crates/rs_srpd/src/metrics.rs:216-219 | it does see one and then two, if a second connection begins between the loads |
| `Control.StepKeeps` | crates/rs_srpd/src/server.rs:279-362 | every step of either side, or of a break, keeps client, server and the two queues in step |
| `Control.ProtocolSafety` | crates/rs_srpc/src/client.rs:68-174 | in every run no reply is unexpected, the k-th reply answers the k-th proxy and an Ok means its port is among those bound, nothing is registered before LoginOk, bound ports are permitted and listed, Pongs never outnumber Pings |
| `Control.PortsAfterLeaving` | crates/rs_srpd/src/server.rs:343-367 | over every run, a tunnel that has ended still holds public ports exactly if the write of a reply to a registration or Ping failed while it had a port; any other way out closes them |
| `Control.LeftOpen` | crates/rs_srpd/src/server.rs:343-350 | that happens: any permitted port stays open if its own RegisterOk cannot be written |
| `Control.RegistersAll` | crates/rs_srpc/src/client.rs:68-124 | from the first message on, a user who may log in can get every proxy the verdict of the port gate, in order, and then serve |
| `ControlLedger.EveryReplyIsTheVerdict` | crates/rs_srpd/src/server.rs:326-362 | over every run the server handles the client's proxies in order and once each; ports have been bound exactly for those that are permitted and whose bind worked when they were handled; each reply read is Ok exactly in that case |
| `ControlLedger.KeepAlivesAreExact` | crates/rs_srpd/src/server.rs:360 | over every run, while both ends serve, Pings sent are Pongs counted plus what is on its way up or down; none is lost, made up or left unanswered |
| `ControlLedger.RefusedExactly` | crates/rs_srpd/src/server.rs:286-301 | over every run only an unknown user is rejected, and in an undisturbed one an unknown user has its login on the way, or the refusal, or has been told |
| `ControlLedger.RefusedAtOnce` | crates/rs_srpd/src/server.rs:291-300 | three steps reject it |
| `ControlLedger.OneReplyOrNone` | crates/rs_srpd/src/server.rs:331-360 | a message that asks for a reply gets exactly one, or the server leaves without a word if it cannot be written; no other message gets any |
| `ControlLedger.OddMessages` | crates/rs_srpd/src/server.rs:282-285 | messages out of turn: a client still registering ends, a serving one ignores them, a server waiting for the login leaves without a word, one in its loop ignores them |
| `ControlLedger.EndsAreFinal` | crates/rs_srpd/src/server.rs:364-367 | nothing moves an end that is over; leaving the loop closes every port |
| `ControlLedger.EndIsNoticed` | crates/rs_srpc/src/client.rs:161-171 | a client whose server has left reads what is still on its way and then stops waiting |
| `Heartbeat.TripsExactly` | crates/rs_srpc/src/client.rs:182-198 | the client gives up at a tick exactly if no Pong was read in the 45 s before it and the tick is later than 45 s |
| `Heartbeat.PromptPongsNeverTrip` | crates/rs_srpc/src/client.rs:34-37 | round trips under 45 s never trip the client |
| `Heartbeat.SlowerPongsMayTrip` | crates/rs_srpc/src/client.rs:34-37 | 45 s is the limit: one millisecond more can trip it, and 45 s exactly if a Pong of the very instant of the check is read after it |
| `Heartbeat.SilenceIsNoticed` | crates/rs_srpc/src/client.rs:176-199 | when Pongs stop, the client gives up within 60 s of the last one |
| `Heartbeat.NeitherEndTrips` | crates/rs_srpd/src/server.rs:314-325 | over a FIFO network with round trips under 45 s and Pings under 30 s, and a first wait under 45 s, neither the client nor the server ever gives up, however ties with a deadline are settled |
| `Heartbeat.ServerSurvives` | crates/rs_srpd/src/server.rs:314-325 | over any network the server never gives up exactly if last registration reply and first Ping together take less than 45 s and no Ping takes 30 s longer than the one before; a Ping ready at the very deadline may count either way, and if it counts both bounds are inclusive |
| `Heartbeat.FirstWaitDecides` | crates/rs_srpd/src/server.rs:44-46 | with Pings under 30 s it never gives up exactly if that first wait is under 45 s, or of 45 s where the tie goes to the Ping |
| `Heartbeat.OneWayBoundIsNotEnough` | crates/rs_srpd/src/server.rs:44-46 | one-way delays under 30 s alone can make the server give up before the first Ping |
| `Heartbeat.SlowerPingsMayTrip` | crates/rs_srpd/src/server.rs:44-46 | Pings that take 30 s, or 30.001 s where ties go to the Ping, can make it give up between two Pings |
| `PortRange.DigitsAreDecimal` | crates/rs_srpd/src/config.rs:194-208 | the digits are 0 to 9, each worth its place in their order |
| `PortRange.ValueOrder` | crates/rs_srpd/src/config.rs:194-208 | of two digit strings of one length, the one smaller at the first difference has the smaller value |
| `PortRange.ParseU16Exactly` | crates/rs_srpd/src/config.rs:194-212 | exactly an optional plus sign, zeros and the decimal form of a number up to 65535 is a port |
| `PortRange.ParseExactly` | crates/rs_srpd/src/config.rs:192-212 | a range string is accepted exactly as one port or as two ports in order with a dash between |
| `PortRange.CanonicalParses` | crates/rs_srpd/src/config.rs:192-212 | every range of ports in order up to 65535 can be written, by the decimal form of one port or of two with a dash |
| `Config.Validate` | crates/rs_srpd/src/config.rs:129-179 | accepts exactly the configurations with a transport, a secret, unique names and parsable ranges, and names the first kind of fault |
| `Config.PermitsExactly` | crates/rs_srpd/src/server.rs:413-419 | a port is permitted exactly if it lies in one of the ranges the entries write out in decimal; with no entry none is |
| `Config.UpsertKeepsValid` | crates/rs_srpd/src/dashboard.rs:176-182 | an upsert of a valid configuration is valid exactly if the new ranges parse, and the user can then log in |
| `Config.DeleteKeepsValid` | crates/rs_srpd/src/dashboard.rs:186-193 | a delete keeps a configuration valid and locks the user out |
| `Config.EntryAfter` | crates/rs_srpd/src/dashboard.rs:176-193 | an upsert or delete writes its own user's entry and leaves every other entry and everything but users as the copied configuration had it |
| `Config.EntryDecidesLogin` | crates/rs_srpd/src/server.rs:280-301 | with unique names, who may log in depends on that user's entry alone |
| `Dashboard.History.OriginWrote` | crates/rs_srpd/src/dashboard.rs:160-226 | however edits overlapped, a user's entry is what the edit it goes back to wrote, or was there from the start |
| `Dashboard.History.UndoneExactly` | crates/rs_srpd/src/dashboard.rs:176-194 | an upsert or delete in effect is undone by a later one exactly if that is of the same user, or was made on a copy taken before |
| `Dashboard.History.NothingLostExactly` | crates/rs_srpd/src/dashboard.rs:176-194 | over a whole history no edit is lost to another user's exactly if no two edits of different users overlap |
| `Dashboard.LostUpsert` | crates/rs_srpd/src/dashboard.rs:176-184 | two overlapping upserts are accepted and written, and the first user cannot log in |
| `Dashboard.LostDelete` | crates/rs_srpd/src/dashboard.rs:186-194 | a deleted user can log in again after an overlapping upsert of somebody else |
| `Dashboard.Service.RequestUpsert` | crates/rs_srpd/src/dashboard.rs:160-184 | accepted exactly for a non-blank name and token and parsable ranges; edits a copy of the configuration of that moment |
| `Dashboard.WhiteExactly` | crates/rs_srpd/src/dashboard.rs:161-164 | blank means made of the 25 white-space characters only |
| `Dashboard.Service.RequestDelete` | crates/rs_srpd/src/dashboard.rs:186-194 | accepted exactly if the user exists |
| `Dashboard.Service.Apply` | crates/rs_srpd/src/dashboard.rs:205-226 | the copy replaces the shared configuration only if it was written to disk |
| `Dashboard.Service.Login` | crates/rs_srpd/src/server.rs:280-301 | succeeds exactly for a name and token of the tunnel's own snapshot |
| `Dashboard.Service.Register` | crates/rs_srpd/src/server.rs:371-419 | a port is bound exactly if it can be and lies in a range of the user in that snapshot |
| `Dashboard.Run` | crates/rs_srpd/src/dashboard.rs:160-226 | from a validated configuration, over every interleaving of edits, swaps, logins and registrations, configurations and tunnels are step by step what the moves make of them; the shared configuration stays valid, every edit in its history was requested, every tunnel has a configuration that was once shared, and no port outside its user's ranges there |

## Left out

- The Noise handshake itself, ChaCha20-Poly1305, Argon2, TLS and postcard: library code; the model keeps the AEAD laws, that both ends hold the same two keys, and that decoding undoes encoding.
- yamux: `MuxDriver` takes an arbitrary connection, and `UdpPath` an arbitrary multiplexer whose view of a substream only grows; yamux framing, flow control and resets are not part of this model.
- tungstenite: a message queue each poll of which may be not ready, broken or ended.
- quic.rs, tlspin.rs, transport.rs, identity.rs, crypto.rs, logging, CLI, dashboard routing and HTML, JSON persistence, client_config.rs: wrappers over libraries and files.
- Reconnect backoff, transport fallback and client configuration checks: they add no hard property.
- `copy_bidirectional` and TCP relaying beyond the counted stream: library code.
- UdpDemux.Run: a datagram that the operating system drops before the loop reads it never came in.
- UdpRelay.Serve: the client's lookup of the proxy by name, and binding its local socket, come before the relay and are not modelled.
- The reverse UDP direction: the same frames and loops as the direction modelled.
- After a fatal read error a caller is taken to stop; the stream itself may be polled further, and then starts over at the byte where it stands.
- Metrics.Registry.TakeSample: wall-clock time is a parameter, and persistence across restarts is not modelled.
- Metrics.Registry.Totals: additions wrap as in a release build; a debug build would panic on an overflowing sum instead.
- Counting.Run: guards and streams of one proxy are not tied to each other, so more histories are covered than the server produces; UDP datagrams are counted by `Metrics.Bank.Add`.
- Dashboard.Service.Apply: writing the file and swapping the shared configuration are one step; which of two overlapping edits the file ends with is not modelled.
- Proto.ReadDatagram: that a frame wholly on the wire is read at all is left to the pipe, which may fail or end any read.
- Heartbeat.PromptPongsNeverTrip: ticks are exact; a timer that fires late, or a Ping that takes time to write, is not modelled.
- Control.StepKeeps: the two protocol loops are step functions on values, because what is proved is their interleaving; updates in place are not part of it.
- Control.ProtocolSafety: timing is not part of it; an idle timeout is one of the breaks that may happen at any step.
