# FlyDPI core: a verified model

FlyDPI observes network traffic. A Windows Filtering Platform callback (C++) queues event snapshots; a Rust worker turns
them into flow-table entries and normalized events; a Go orchestrator polls those events, probes targets, and ranks and
reports diagnoses to a Qt client. This project models the parts of that system that carry state or parse bytes and proves
what they keep, in every run and on every input.

| files | what they model |
|---|---|
| `Pipeline`, `PipelineInvariant`, `PipelineTheorems`, `PipelineStop`, `PipelineProgress`, `Positions` | callback, ingest worker and foreign poller as a step system over the native queue, the flow table and the event ring; one step is what happens under one lock or one atomic access |
| `NativeObserver`, `EventRing`, `RingHistory`, `Bridge`, `Ingest`, `RuntimeApi` | the classes and loops behind those steps, each method proved against the function the step system uses |
| `TlsGrammar`, `TlsSplit`, `TlsAnalyzer`, `TlsTheorems`, `TlsWire`, `PayloadAnalyzer`, `Vectors`, `Utf8`, `TransportTypes` | the passive TLS and QUIC analyzers against byte grammars written as syntax trees |
| `PacketParser`, `FlowTypes` | the IPv4/TCP/UDP metadata parser against a packet grammar |
| `FlowTable`, `FlowAnalyzer`, `FlowHistory` | the two flow tables, compared with each other and with the packet history |
| `Probe`, `ProbePool` (in `ProbePool.dfy`) | the sequential probe run and the worker pool |
| `RpcFraming`, `Selector`, `Diagnostics` | newline framing in the Qt client, candidate ranking, report severity |

## How to read it

`dafny verify dfyconfig.toml` checks everything. Loops and objects of the source are methods and classes here; each
method's `ensures` ties it to a specification function, and the lemmas say what that function means. Syntax trees come
with a predicate (`...Ok`), their bytes (`...Bytes`) and a splitting function that is proved to find the one tree of a
byte string, so acceptance is an if-and-only-if. What the shared field helpers (lengths, flag bits, elapsed time, endpoint
order, codes) mean is stated once more without them, by byte position, place value or concrete input: the `...OnTheWire`
and `...Exactly` lemmas, the payloads of `TlsWire`, and the inputs of the repository's own tests.

Conventions: times are integers, and elapsed time is never negative, as in `Instant::duration_since`; 64-bit counters
saturate in the Rust parts and wrap in the native atomics; `drained` is a 32-bit counter that wraps, as in a release
build. Addresses stay byte strings, protocol names stay strings.
Clock readings, probe outcomes, lookups and lower-casing are parameters, so the results hold for all of them.

## What the model found

- A ClientHello message whose body is exactly 34 bytes passes the length guard (`transport.rs:66`) and is then indexed at
  34 (`transport.rs:71`). `TlsTheorems.PanicsExactly` gives the exact condition, readable from the headers,
  `TlsTheorems.PanicWitness` an input. `FlowSessionAnalyzer.ObservePacket` has then already updated counters and flags.
- The worker's drain loop does not look at the stop flag. Whatever callbacks do, the steps a stopped worker has left are
  bounded if and only if it is outside that loop when the flag is set (`PipelineStop.StopBoundedExactly`), and a stop may
  well find it inside (`PipelineStop.StopWhileDraining`). Once callbacks cease to start it does return
  (`PipelineStop.StopCompletes`, `PipelineStop.StopReturns`), three steps later at most for each callback that still
  started (`PipelineStop.StopBound`). The same line decides about snapshots still queued when the flag is set: they can
  be popped if and only if the worker is inside the loop (`PipelineProgress.QueuedAtStopExactly`).
- `architecture/DIAGNOSTIC_REPORT.md` promises severity `critical` for DNS divergence; the code never reports it
  (`Diagnostics.Run`).
- `architecture/WFP_INGEST.md` says incomplete endpoint metadata is rejected. The remote address is never looked at: a
  snapshot without one is rejected if and only if its version or protocol is unsupported or both its ports are zero
  (`Bridge.RejectedExactly`); otherwise it enters the table under the zero address (`Bridge.MissingAddressAccepted`).
- A ClientHello longer than its own record, which section 5.1 of RFC 8446 allows to be split over records, stays Truncated
  whatever bytes follow (`TlsTheorems.TruncationEndsExactly`; `TlsTheorems.SplitHelloWitness` is such a payload).
- The summary of the tls stage (`engine.go:102`) counts a target that was never reached as a success. Its number is that of
  the completed handshakes if and only if every target was reached, that is, if the tcp stage passed
  (`Diagnostics.TlsCountRightExactly`, `Diagnostics.Run`); `Diagnostics.TlsCountWitness` is one unreached target, reported
  as one success of one.
- `architecture/WFP_EVENT_PIPELINE.md` and `native/wfp-observer/README.md` describe an older observer without a queue; the
  model follows the code.

## Model

| member | source | states |
|---|---|---|
| PipelineInvariant.InvStep | crates/flydpi-core/src/ingest.rs:42-72 | every step of callback, worker and poller, in any order, keeps the joint invariant of queue, worker, flow table, ring and all counters |
| PipelineTheorems.Conservation | native/wfp-observer/wfp_observer.cpp:90-98 | in every run the snapshots evicted, queued, rejected, in flight, overwritten, in the ring and delivered add up to those that arrived, and both queues are within capacity |
| PipelineTheorems.OneFate | crates/flydpi-core/src/ingest.rs:42-68 | in every reachable state each arrival position has exactly one of these seven fates, and the delivered ones are those handed to callers |
| PipelineProgress.FateMovesForward | crates/flydpi-core/src/ingest.rs:42-68 | over any run a fate turns only into one that can follow it; evicted, rejected, overwritten and delivered are for good |
| PipelineProgress.WorkerGetsToIt | crates/flydpi-core/src/ingest.rs:42-68 | three worker steps for each snapshot ahead and the rest of a round later, a queued or held snapshot has left queue and worker, as long as the worker still serves |
| PipelineProgress.ServesUntilStop | crates/flydpi-core/src/ingest.rs:42-66 | until the flag is set the worker serves |
| PipelineProgress.QueuedAtStopExactly | crates/flydpi-core/src/ingest.rs:42-44 | once the flag is set, a queued snapshot can still be popped if and only if the worker is inside the drain loop |
| PipelineProgress.CallersGetToIt | crates/flydpi-core/src/runtime.rs:124-166 | an event with n ahead of it in the ring is delivered or overwritten after more than n polls or drains |
| PipelineTheorems.CountersTell | crates/flydpi-core/src/ingest.rs:14-20 | the native drop and event counters, the ring's drop counter and the seen, normalized and rejected statistics are the wrapped or saturated true counts; seen is normalized plus rejected between snapshots |
| PipelineTheorems.DropsAsLastRead | crates/flydpi-core/src/ingest.rs:64-71 | the drops in the statistics are the observer's counter at the worker's last reading of it, at the end of a pass or on leaving, and evictions only grow afterwards |
| PipelineTheorems.ReportedDrops | crates/flydpi-core/src/ingest.rs:64-71 | so they are the wrapped count of at most the evictions that happened |
| PipelineTheorems.DeliveryInOrder | crates/flydpi-core/src/runtime.rs:124-166 | what any mix of polls and drains hands out are images of accepted snapshots at strictly increasing arrival positions, so in order and at most once |
| PipelineTheorems.DeliveredFieldsAreTrue | crates/flydpi-core/src/runtime.rs:75-88 | a delivered event carries the protocol number and remote port of the snapshot it stems from, and that snapshot is TCP or UDP over IP version 4 or 6 |
| PipelineTheorems.LosslessWhileWithinCapacity | crates/flydpi-core/src/ring.rs:32-43 | while neither queue has overflowed, delivered and held events are exactly those of every accepted snapshot dealt with, in order |
| PipelineTheorems.FlowAccounting | crates/flydpi-core/src/ingest.rs:48-61 | below saturation the packets of all flows add up to the events normalized, and each flow counts its own snapshots |
| PipelineStop.StopBound | crates/flydpi-core/src/ingest.rs:78-90 | after the flag is set the worker takes at most its remaining measure plus three steps per callback that still starts |
| PipelineStop.StopCompletes | crates/flydpi-core/src/ingest.rs:78-90 | from every state with the flag set there is a run without another callback in which the worker returns, within its measure of steps |
| PipelineStop.StopReturns | crates/flydpi-core/src/ingest.rs:78-90 | in every endless schedule that keeps giving the worker turns and in which callbacks cease to start, a stopped worker returns |
| PipelineStop.StopBoundedExactly | crates/flydpi-core/src/ingest.rs:42-66 | whatever callbacks do, a stopped worker's remaining steps are bounded if and only if it is outside the drain loop |
| PipelineStop.StopWhileDraining | crates/flydpi-core/src/ingest.rs:42-44 | a state with the flag set and the worker inside the drain loop is reachable with every ring capacity |
| PipelineStop.WorkerCanMove | crates/flydpi-core/src/ingest.rs:42-72 | until it returns the worker has a step to take, if need be after a callback releases the queue lock |
| PipelineStop.StopCanBeOutrun | crates/flydpi-core/src/ingest.rs:44-62 | from every state inside the drain loop, stopped or not, and for every number there is a run with that many worker steps that never leaves it |
| PipelineStop.NothingAfterReturn | crates/flydpi-core/src/ingest.rs:70-72 | once the worker returned, no step of anyone pops, feeds or pushes; callers only ever see what the ring already held |
| PipelineTheorems.StepsAreOneRound | crates/flydpi-core/src/ingest.rs:44-62 | the pop, feed and push steps together compute one round of the worker's loop |
| NativeObserver.WfpObserver.OnNetEvent | native/wfp-observer/wfp_observer.cpp:90-98 | the queue keeps the newest 4096 snapshots; only a full one loses its oldest and counts it; the event counter counts every call; both wrap at 2^64 |
| NativeObserver.WfpObserver.Pop | native/wfp-observer/wfp_observer.cpp:145-152 | the oldest snapshot leaves the queue, or not-found and nothing changes |
| EventRing.EventRing.Push | crates/flydpi-core/src/ring.rs:32-38 | the ring keeps the newest events up to capacity and counts a discarded one, saturating |
| EventRing.EventRing.Drain | crates/flydpi-core/src/ring.rs:40-43 | the events taken followed by those left are the old contents; at most `max` are taken |
| EventRing.EventRing.Clear | crates/flydpi-core/src/ring.rs:45-47 | the ring is empty and its drop counter is kept |
| RingHistory.HoldsNewest | crates/flydpi-core/src/ring.rs:28-47 | after any pushes, drains and clears the ring holds exactly the last `len` events pushed, within capacity |
| RingHistory.DroppedExactly | crates/flydpi-core/src/ring.rs:28-47 | the drop counter is pushes minus handed out minus cleared minus held, saturated |
| RingHistory.NoLossBetweenFullDrains | crates/flydpi-core/src/ring.rs:32-43 | if at most `capacity` pushes lie between full drains, nothing is ever dropped |
| RingHistory.NothingDroppedNothingLost | crates/flydpi-core/src/ring.rs:32-43 | while the counter is zero and nothing was cleared, handed out and held events are all that were pushed, in order |
| Bridge.FeedSnapshot | crates/flydpi-core/src/wfp_bridge.rs:182-186 | an event comes back exactly when the table was updated; then the entry of the snapshot's protocol, remote address, remote port and local port is new with one packet or keeps its start and bytes, and no other changes |
| Bridge.KeyFields | crates/flydpi-core/src/wfp_bridge.rs:174-175 | an accepted snapshot is filed under its own remote address and port, local port, and Tcp for 6 or Udp for 17 |
| Bridge.EventFields | crates/flydpi-core/src/wfp_bridge.rs:156-168 | its event carries the remote end, the label tcp or udp, Unix milliseconds, and the result code's bits when it is not zero |
| Bridge.EventExactly | crates/flydpi-core/src/wfp_bridge.rs:151-158 | a snapshot yields an event exactly for version 4 or 6, labelled other for other protocols |
| PipelineTheorems.AcceptedTrip | crates/flydpi-core/src/ingest.rs:42-68 | one callback, one pass and one poll from a fresh start hand out the snapshot's own protocol, port and code, and leave one flow under its own endpoints |
| Bridge.RejectedExactly | crates/flydpi-core/src/wfp_bridge.rs:170-180 | a snapshot is rejected if and only if its version or its protocol is unsupported or both ports are zero, whatever its address fields hold |
| Bridge.SameFlowExactly | crates/flydpi-core/src/wfp_bridge.rs:170-180 | accepted snapshots share a flow if and only if protocol, address bytes and ports agree; IP version and a missing address make no difference |
| Bridge.MissingAddressAccepted | crates/flydpi-core/src/wfp_bridge.rs:170-180 | a concrete snapshot whose remote address was never set and that still enters the table |
| Ingest.HandleSnapshot | crates/flydpi-core/src/ingest.rs:45-61 | one snapshot: seen, fed, and pushed and normalized or else rejected |
| Ingest.DrainPass | crates/flydpi-core/src/ingest.rs:43-62 | with no callback meanwhile the loop empties the queue, handling each snapshot once in order |
| Ingest.PassPushes | crates/flydpi-core/src/ingest.rs:53-59 | over a pass the ring receives exactly the events of the accepted snapshots, in order |
| Ingest.PassCounts | crates/flydpi-core/src/ingest.rs:46-61 | over a pass the statistics grow by the snapshots seen, normalized and rejected, which add up |
| Ingest.PushedAllMeaning | crates/flydpi-core/src/ring.rs:32-38 | a batch leaves the newest of old and new events and counts every one that had to go |
| RuntimeApi.Poll | crates/flydpi-core/src/runtime.rs:124-141 | the oldest event is converted into the caller's slot and leaves the ring, or the slot and ring stay as they were; null gives 87 |
| RuntimeApi.Drain | crates/flydpi-core/src/runtime.rs:151-166 | exactly the first n slots are written, n at most the capacity, the others are unchanged, and the ring loses exactly those events |
| RuntimeApi.CodesAreStable | crates/flydpi-core/src/runtime.rs:52-90 | the seven event codes and the protocol codes by value, and the event of the source's test |
| RuntimeApi.PollBatch | orchestrator/internal/runtime/runtime_windows.go:109-125 | with no push meanwhile, repeated polls return and leave what one drain of the limit bounded by 256 would: as many events as asked for and there are, 256 at most |
| RuntimeApi.SnapshotFieldsSurvive | crates/flydpi-core/src/wfp_bridge.rs:156-168 | protocol number, port, result code and time survive the way from snapshot through strings and codes to the C event |
| TlsAnalyzer.AnalyzeTlsClientHello | crates/flydpi-core/src/transport.rs:45-140 | the nested loops stay in bounds, terminate and compute the grammar-based outcome for every payload |
| TlsAnalyzer.ScanExtensions | crates/flydpi-core/src/transport.rs:103-136 | the extension loop fails exactly when the block is no extension list, and keeps the name of the last contributing server_name |
| TlsAnalyzer.ScanServerName | crates/flydpi-core/src/transport.rs:112-134 | the name loop fails exactly when the list is malformed before its first host name, and yields that name when it is valid UTF-8 |
| TlsTheorems.AcceptedExactly | crates/flydpi-core/src/transport.rs:45-140 | a ClientHello is reported if and only if a framed syntax tree spells the payload, with that tree's version, name and length |
| TlsTheorems.MalformedExactly | crates/flydpi-core/src/transport.rs:65-137 | Malformed is returned if and only if a whole message is carried, is not 34 bytes long and no tree spells it |
| TlsTheorems.NotRecognisedExactly | crates/flydpi-core/src/transport.rs:49-60 | Unknown is returned if and only if nothing is cut short and no ClientHello message is carried |
| TlsTheorems.PanicsExactly | crates/flydpi-core/src/transport.rs:66-71 | the out-of-range index happens if and only if the headers announce a complete ClientHello of 34 bytes |
| TlsTheorems.PanicWitness | crates/flydpi-core/src/transport.rs:66-71 | a ClientHello that ends after its random is such a payload |
| TlsTheorems.LaterBytesIgnored | crates/flydpi-core/src/transport.rs:46-64 | an answer other than Truncated is not changed by any bytes that follow |
| TlsTheorems.TruncationEndsExactly | crates/flydpi-core/src/transport.rs:46-64 | some later bytes change a Truncated answer if and only if the record is incomplete and what is known of its message still fits into it |
| TlsTheorems.SplitHelloWitness | crates/flydpi-core/src/transport.rs:57-64 | a complete record that holds only the beginning of its ClientHello is Truncated for good |
| TlsTheorems.FrameUnique | crates/flydpi-core/src/transport.rs:52-65 | a payload carries at most one message, and it is the one the header arithmetic cuts out |
| TlsTheorems.HelloUnique | crates/flydpi-core/src/transport.rs:70-137 | a body has at most one syntax tree: the vectors and the type-length-value decomposition are unique |
| TlsTheorems.TreeOutcome | crates/flydpi-core/src/transport.rs:45-140 | parsing inverts encoding for every tree of the grammar |
| TlsTheorems.HostNameRoundTrip | crates/flydpi-core/src/transport.rs:45-140 | any ClientHello with one host name among any other extensions parses back to its version, name and length, whatever follows |
| TlsWire.FrameOnTheWire | crates/flydpi-core/src/transport.rs:46-64 | the nine header bytes of a framed message, digit by digit: record type, version, record length, message type 1, 24-bit length |
| TlsWire.HelloOnTheWire | crates/flydpi-core/src/transport.rs:70-85 | version, random, session identifier and cipher suites stand at their byte positions with their length bytes |
| TlsWire.RestOnTheWire | crates/flydpi-core/src/transport.rs:89-101 | compression methods, the two length bytes of the extension block, the block and ignored bytes |
| TlsWire.Vec16OnTheWire | crates/flydpi-core/src/transport.rs:105-106 | every two-byte length stands high byte first in front of its contents |
| TlsWire.ServerNameExtension | crates/flydpi-core/src/transport.rs:103-112 | a server_name extension has type bytes 0 and 0 in front of its contents |
| TlsWire.ServerNameOnTheWire | crates/flydpi-core/src/transport.rs:113-118 | the contents of a server_name extension: two length bytes, the list, ignored bytes |
| TlsWire.OtherExtension | crates/flydpi-core/src/transport.rs:103-112 | any other extension has its own type, high byte first, in front of its contents |
| TlsWire.NameOnTheWire | crates/flydpi-core/src/transport.rs:117-130 | a host name entry has type 0 in front of its name, an entry passed over its own type |
| TlsWire.HelloWithHost | crates/flydpi-core/src/transport.rs:45-140 | a ClientHello written out byte by byte, with any random, that names a.b gives version 0x0303, that name and its length |
| TlsWire.HelloWithoutHost | crates/flydpi-core/src/transport.rs:86-88 | one that ends after its cipher suites is accepted without a name |
| TlsWire.ShortAndOther | crates/flydpi-core/src/transport.rs:46-51 | the two bytes of the source's test are Truncated, a record of another type is Unknown |
| TlsWire.LastNameWins | crates/flydpi-core/src/transport.rs:126-131 | of two server_name extensions the later valid name counts |
| Utf8.ValidExactly | crates/flydpi-core/src/transport.rs:127-129 | the byte-level condition on names holds exactly for the encodings of sequences of Unicode scalar values |
| Utf8.KnownEncodings | crates/flydpi-core/src/transport.rs:127-129 | four encodings by value; an overlong form, a surrogate, a value above 0x10FFFF and a stray continuation byte are not valid |
| Utf8.AsciiIsValid | crates/flydpi-core/src/transport.rs:127-129 | ASCII names always pass that condition |
| PayloadAnalyzer.AnalyzeQuicHeader | crates/flydpi-core/src/transport.rs:142-171 | the reader stays in bounds and computes the grammar-based outcome for every payload |
| PayloadAnalyzer.QuicAcceptedExactly | crates/flydpi-core/src/transport.rs:142-171 | a QUIC header is reported if and only if the payload is a long header with identifiers of up to 20 bytes, with its fields |
| PayloadAnalyzer.QuicMalformedExactly | crates/flydpi-core/src/transport.rs:142-171 | Malformed is returned if and only if at least six bytes with the long form bit set spell no such header |
| PayloadAnalyzer.QuicOtherAnswers | crates/flydpi-core/src/transport.rs:142-151 | Unknown exactly for a first byte below 128, Truncated exactly for nothing or fewer than six bytes of a long header |
| PayloadAnalyzer.QuicByPosition | crates/flydpi-core/src/transport.rs:152-170 | version, type and identifier lengths are read from their byte positions, and exactly the bounds of 20 and of the payload make it Malformed |
| PayloadAnalyzer.LongHeaderOnTheWire | crates/flydpi-core/src/transport.rs:152-164 | the bytes of an encoded long header by position |
| PayloadAnalyzer.InitialPacket | crates/flydpi-core/src/transport.rs:178-189 | the packet of the source's test has version 1, type 0 and identifiers of 4 and 2 bytes |
| PayloadAnalyzer.LongHeaderUnique | crates/flydpi-core/src/transport.rs:153-164 | splitting inverts the encoding of long headers, and a payload is at most one of them |
| PayloadAnalyzer.AnalyzePayload | crates/flydpi-core/src/transport.rs:37-43 | TCP payloads get the TLS outcome, UDP payloads the QUIC outcome, others are unsupported |
| PacketParser.ParsesEveryPacket | crates/flydpi-core/src/packet.rs:19-108 | every packet with any IP and TCP options parses to its own flow, length and flags, whatever bytes follow |
| PacketParser.AcceptsOnlyPackets | crates/flydpi-core/src/packet.rs:19-108 | every accepted buffer is a packet of the grammar followed by ignored bytes, and the metadata is that packet's |
| PacketParser.AcceptedExactly | crates/flydpi-core/src/packet.rs:19-108 | a buffer is accepted if and only if a direction is given and the buffer starts with a packet of the grammar |
| PacketParser.RemoteEnd | crates/flydpi-core/src/packet.rs:44-105 | outbound packets have their destination as the remote end and inbound ones their source, in the first four address bytes, zeros behind |
| PacketParser.HeaderOnTheWire | crates/flydpi-core/src/packet.rs:26-43 | the header fields of an encoded packet by byte position |
| PacketParser.SegmentOnTheWire | crates/flydpi-core/src/packet.rs:50-85 | ports, data offset, flags and UDP length of an encoded segment by byte position |
| PacketParser.RejectionsExactly | crates/flydpi-core/src/packet.rs:23-106 | which of the six errors a buffer gets, each with its exact condition on the bytes |
| PacketParser.TestPackets | crates/flydpi-core/src/packet.rs:113-158 | the packets of the source's tests, with any addresses and ports, in all three directions |
| PacketParser.ReplyHasSameFlow | crates/flydpi-core/src/packet.rs:44-105 | exchanging addresses and ports and flipping the direction gives the same flow, length and flags, or the same error, for every buffer |
| FlowTable.Datapath.OnPacket | crates/flydpi-core/src/datapath.rs:55-73 | the packet's entry is created or brought up to date and no other entry changes |
| FlowTable.Datapath.ExpireIdle | crates/flydpi-core/src/datapath.rs:78-82 | a flow stays if and only if it was there and heard within `idle`, with its entry unchanged, and the number of flows silent for longer is returned |
| FlowAnalyzer.FlowSessionAnalyzer.ObservePacket | crates/flydpi-core/src/flow_analyzer.rs:46-79 | the packet's entry takes up what the packet shows; a panic of the payload analysis is reported after the counters and flags are stored |
| FlowAnalyzer.FlowSessionAnalyzer.Expire | crates/flydpi-core/src/flow_analyzer.rs:88-92 | a flow stays if and only if it was there and heard within `idle`, with its signals unchanged, and the number of the others is returned |
| FlowTypes.FlagBits | crates/flydpi-core/src/flow_analyzer.rs:54-61 | FIN, SYN, RST and ACK are the bits of value 1, 2, 4 and 16 |
| FlowAnalyzer.FlowSessionAnalyzer.TrackFlags | crates/flydpi-core/src/flow_analyzer.rs:53-61 | the five TCP signals after a packet, by the bits of its flags byte |
| FlowHistory.Lockstep | crates/flydpi-core/src/datapath.rs:55-82 | after any packets and expiries both tables hold the same flows with equal counts and times |
| FlowHistory.SameExpiryCount | crates/flydpi-core/src/flow_analyzer.rs:88-92 | every expiry removes the same flows from both tables and so returns the same number |
| FlowHistory.EntryIsEpoch | crates/flydpi-core/src/flow_analyzer.rs:46-92 | an entry exists exactly while its flow was heard since it last expired, and every field is what those packets show: flags, saturated totals, first and last time, latency, last name, last QUIC fields |
| FlowHistory.ExpiredExactly | crates/flydpi-core/src/flow_analyzer.rs:88-92 | over any history an expiry removes exactly the flows whose last packet lies more than `idle` back, now > last + idle |
| FlowHistory.LatencyWithSteadyClock | crates/flydpi-core/src/flow_analyzer.rs:62-64 | with a clock that never goes back a latency is present exactly when both SYN and SYN-ACK were seen |
| FlowHistory.LifecycleNeverMovesBack | crates/flydpi-core/src/flow_analyzer.rs:97-103 | while a flow stays in the table its state never moves back, over any number of operations |
| FlowHistory.SynAckIsAck | crates/flydpi-core/src/flow_analyzer.rs:57-59 | in every reachable state a SYN-ACK seen implies an ACK seen |
| FlowHistory.DiagnosisFitsProtocol | crates/flydpi-core/src/flow_analyzer.rs:105-115 | UDP flows are diagnosed QUIC or not at all, TCP flows never QUIC, others never |
| FlowHistory.LifecycleExactly | crates/flydpi-core/src/flow_analyzer.rs:97-103 | the state of a flow from the flag bits of its packets since it last expired |
| FlowHistory.DiagnosisExactly | crates/flydpi-core/src/flow_analyzer.rs:105-115 | each diagnosis with its exact condition on the flag bits, reports and times of those packets |
| FlowHistory.NameIsLast | crates/flydpi-core/src/flow_analyzer.rs:68-71 | the server name kept is that of the last ClientHello that carried one |
| FlowHistory.QuicFieldsAreLast | crates/flydpi-core/src/flow_analyzer.rs:72-76 | QUIC version and packet type are those of the last long header |
| FlowHistory.ResetDetected | crates/flydpi-core/src/flow_analyzer.rs:124-134 | the packet of the source's test leaves its flow reset and diagnosed so |
| FlowHistory.IdleTimeoutExactly | crates/flydpi-core/src/flow_analyzer.rs:105-110 | an idle timeout is suspected if and only if a SYN was seen, no SYN-ACK, FIN or RST, and the flow has been silent for the timeout |
| Probe.ProbeOne | orchestrator/internal/probe/probe.go:34-72 | the result filled in step by step names its target and reports the attempt with the defaults in place |
| Probe.ResultReports | orchestrator/internal/probe/probe.go:34-72 | given port and server name reach the network unchanged, missing ones are 443 and the target; a handshake needs a connection and only it leaves no error |
| Probe.Run | orchestrator/internal/probe/probe.go:26-32 | one outcome per target, in order |
| ProbePool.RunKeepsInv | orchestrator/internal/probe/engine.go:27-49 | in every interleaving a slot is written exactly when its job was taken and is no longer held, and then with its outcome |
| ProbePool.JobsAreExclusive | orchestrator/internal/probe/engine.go:37-44 | no two workers ever hold the same job |
| ProbePool.RunsAreBounded | orchestrator/internal/probe/engine.go:45-47 | every step brings a run one closer to its end, `2n + 1 + workers` steps in all |
| ProbePool.PoolNeverStuck | orchestrator/internal/probe/engine.go:37-47 | in every state that is not final some goroutine can move |
| ProbePool.PoolRefinesSequential | orchestrator/internal/probe/engine.go:27-49 | a finished pool holds in slot i what the sequential run finds for target i |
| ProbePool.FinishedRuns | orchestrator/internal/probe/engine.go:27-49 | a finished run has exactly that many steps and every job was taken by one worker |
| ProbePool.DefaultsExactly | orchestrator/internal/probe/engine.go:20-25 | exactly a missing port, timeout or number of workers is replaced, by 443, two seconds and 8 |
| ProbePool.EngineAsks | orchestrator/internal/probe/engine.go:20-49 | a finished engine holds for target i what the network answers for its timeout, its port and that target |
| ProbePool.EngineHasWorkers | orchestrator/internal/probe/engine.go:20-33 | the defaults always leave a worker for a non-empty target list: as many as configured, but no more than targets |
| RpcFraming.RpcClient.OnReadyRead | ui/qt/RpcClient.cpp:130-172 | one read handles exactly the complete non-blank lines of buffer and chunk and keeps what follows the last newline |
| RpcFraming.ChunkingDoesNotMatter | ui/qt/RpcClient.cpp:130-172 | however a stream is cut into reads the same lines are handled, and the waiting buffer holds no newline |
| RpcFraming.MessagesArrive | ui/qt/RpcClient.cpp:133-138 | newline-terminated messages are handled one by one, trimmed, and an unfinished one waits |
| RpcFraming.TrimmedExactly | ui/qt/RpcClient.cpp:136 | trimming removes blanks at both ends and nothing else |
| Selector.Rank | orchestrator/internal/strategy/selector.go:45-87 | the ranking is a permutation of the scored candidates, strictly ordered by value, then identifier |
| Selector.RankIsUnique | orchestrator/internal/strategy/selector.go:80-85 | there is only one such ranking, so the sort algorithm cannot matter |
| Selector.EvidenceNeverDemotes | orchestrator/internal/strategy/selector.go:59-64 | more resets or timeouts alone never move the correlation candidate down |
| Selector.EvidenceExactly | orchestrator/internal/strategy/selector.go:48-77 | what raises each candidate above its weight, by how much and up to where; connection and name failures raise none |
| Selector.ReasonsExactly | orchestrator/internal/strategy/selector.go:46-77 | the reason given says whether the candidate's own evidence was seen |
| Selector.NoEvidence | orchestrator/internal/strategy/selector.go:36-42 | with no evidence the ranking is one fixed list |
| Selector.CorrelationLeads | orchestrator/internal/strategy/selector_test.go:5-13 | two resets and two timeouts put the correlation candidate first whatever else was observed |
| Diagnostics.Run | orchestrator/internal/diagnostic/engine.go:48-109 | stages, their counts, features and entries say what lookups and probes found; severity is ok if and only if dns, tcp and tls passed; a reset forces a warning; critical never occurs |
| Diagnostics.TlsCountRightExactly | orchestrator/internal/diagnostic/engine.go:100-102 | the tls stage's number is the completed handshakes plus the unreached targets, and so right if and only if every target was reached |
| Diagnostics.TlsCountWitness | orchestrator/internal/diagnostic/engine.go:100-102 | one unreached target gives one success of one, with no handshake |
| Diagnostics.ProbeLoop | orchestrator/internal/diagnostic/engine.go:77-95 | the failure counts are the numbers of results that failed at each stage and of the entries that say so, and each entry describes its result |
| Diagnostics.ClassifyExactly | orchestrator/internal/diagnostic/engine.go:133-138 | the class of an error text by which of timeout, deadline and reset occur in its lower-cased form |
| Diagnostics.FamiliarErrors | orchestrator/internal/diagnostic/engine.go:133-138 | connection reset by peer, i/o timeout and connection refused get the three classes |
| Diagnostics.CompareLookups | orchestrator/internal/diagnostic/engine.go:49-64 | the dns stage fails exactly when some name resolves in one resolver only; a name counts as resolved by its last answered lookup |
| Diagnostics.Summarize | orchestrator/internal/diagnostic/engine.go:124-131 | features and entries decide severity and headline: all is well if and only if nothing is poisoned and every entry succeeded |
| Diagnostics.Recount | orchestrator/internal/diagnostic/engine.go:125-126 | the recount finds the numbers of entries that failed to connect and that failed their handshake |

## Left out

- Windows and FFI plumbing: engine and subscription handles, DLL loading, raw pointers, struct layout; the observer is its queue and counters.
- The native callback's copying of event fields, application identifiers and flags: snapshots arrive as values; no claim is made about which IP version numbers Windows reports.
- Poisoned mutexes: locks are assumed to be usable.
- The bridge's release of the observer when the worker returns: callbacks may still run in the model, which only makes it more general.
- NativeObserver.WfpObserver.OnNetEvent: is stated for an undisturbed call; the interleaved halves are the steps `MakeRoom`, `Append` and `CountEvent` of the pipeline.
- RuntimeApi.PollBatch: is stated with no concurrent push; interleaved polls are `Take` steps of the pipeline.
- Ingest.DrainPass: is stated with no concurrent callback; the interleaved loop is the pipeline's worker.
- Probe.Run: the network is a function of timeout, port, server name and target, so two probes of one target give one outcome; addresses are not joined to one string.
- RpcFraming.RpcClient.OnReadyRead: JSON decoding and the signals it triggers; lines are logged in order. One connection only, since the buffer is not cleared on disconnect.
- Selector.Rank: values are exact rationals; floating-point rounding is not modelled. The library sort is replaced by insertion, which `Selector.RankIsUnique` shows to be immaterial.
- Diagnostics.Run: titles, explanations, progress figures and times; the four headline texts are an enumeration.
- Text formatting of IP addresses; addresses stay 16-byte strings.
- `flow_analyzer.rs` groups its signals in one flat record; the model groups the same fields by what updates them.
- The Go telemetry decoder, the strategy classifier, profile and history stores, the RPC server, the launcher and the QML interface.
