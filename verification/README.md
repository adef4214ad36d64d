# T2D verification model

T2D carries UDP datagrams between clients and a server over several TCP connections ("lanes"). This project
models the parts of it that have to get concurrency, buffering and ordering right, and proves what they promise.
All files verify together with `dafny verify dfyconfig.toml`.

- **Framing** (`Bytes`, `Packet`, `Control`, `Framing`, `ServerFraming`, `StreamBuffer`, `Traffic`, `WireFormat`): the
  20-byte header, control payloads, and the cutting of a TCP stream into frames, as a pure parser and twice as the
  imperative code that implements it: the client's `StreamBuffer` on one array and the server's `OnTraffic` loops.
- **The reorder buffer** (`Reorder*`, `Striping`): the server's per-session buffer for striped packets, as a function
  on values and as an object updated in place, with write failures and the clock as inputs.
- **The upstream ring** (`Ring*`, `UpstreamRing`): the lock-free ring between one producer and one consumer, once as
  interleaved atomic steps and once as an object whose operations run undisturbed.
- **Batching** (`Batching`): the client's and the server's batch writers.
- **Supervision** (`Supervision*`): manager, watchers and writer of one upstream lane.
- **Downstream lanes** (`Lanes*`, `LaneServer`): registration of sessions and connections between clients and server.
- **Sessions** (`Sessions`): the client's two session tables.
- **The whole upstream path** (`Tunnel*`): from datagrams read to datagrams written to the backend, first with a queue
  in the place of each lane's ring, then with the ring machine itself.
- **The downstream path** (`Downstream*`): from datagrams read from a backend to datagrams written to the session's
  peer, across lost and replaced connections.

State machines are written as `Apply(state, action)`, with `Run` over a list of actions; a theorem about every list of
actions is a theorem about every interleaving. Beside what always holds (`*Safety`, `*Results`, `*Order`) stands what
gets done (`*Progress`, `*Complete`, `*Connects`, `ReorderSteps`). Where the code works in place, a class does too, and
its methods are proved against the functions.

Some properties turn out to hold only under a condition. Then the condition is stated and proved exact:
`ReorderOrder.OrderExactly`, `ReorderOrder.IncreasingExactly`, `ReorderLimits.WindowExactly`, `ReorderLimits.DisplacementExactly`,
`RingClosing.ClosingExactly`, `RingWords.LoopEndsExactly`, `ServerFraming.FramingsAgree`,
`ServerFraming.ServerParsesExactly`, `ServerFraming.RegisterLimit`, `Control.ControlRoundTripBack`,
`LanesResults.HashExactly`, `LanesMixed.DanglesExactly`, `Sessions.StepAgrees`, `Sessions.AgreementExactly`,
`TunnelLimits.LimitsExactly`, `TunnelLimits.NextOfNoneExactly`, `TunnelLimits.DiscardsExactly`,
`TunnelZero.NextOfNoneFor`, `DownstreamOrder.ClientLimitExactly`.

Assumptions that apply throughout:

- `int` has 64 bits, so sizes and `HeaderSize + Length` do not overflow. Everything of 32 bits or less that can wrap is
  modelled with its wrap-around, as are the ring's 64-bit counters.
- gnet is not part of this model. A connection's inbound buffer is a byte sequence, and `Next(n)` takes exactly n bytes
  for positive n. What `Next(0)` takes is an input, any function of the number of bytes buffered: the server calls it for
  frames with an empty payload, which arise from empty datagrams under a cipher that adds no bytes, as the default one
  (`none`). The theorems about the whole path hold whenever no frame is empty, or `Next(0)` takes nothing, and
  `TunnelLimits` and `TunnelZero` show that they fail otherwise.
- Whether a write succeeds, what the clock shows, when a timer fires, in which pieces TCP delivers, and what the
  scheduler does are inputs; the theorems hold for all of them unless they say otherwise.
- In `Sessions` the creation of a session and the removal of an expired one are single steps, although the client makes
  several operations on concurrent maps for each (internal/client/client.go:504-508, 844-846).
- Ciphers are abstract: decryption undoes encryption, and encryption adds a fixed number of bytes.

Where comments in the code and the code differ, the model follows the code: `NextRef` says that its payload is good only
until the next `Write`, `Reset` or `NextRef`, but only `Write` writes the array
(`StreamBuffers.StreamBuffer.NextRef`, `StreamBuffers.StreamBuffer.Reset`).

## Model

| member | source | states |
|---|---|---|
| TunnelSafety.EndToEnd | internal/client/client.go:539-636 | striping off, every interleaving of sessions, every batch split, every cutting of the TCP streams, no frame empty or `Next(0)` taking nothing: no packet is too large, the server never discards, a session's backend has at every moment a prefix of that session's packets, and all of them once its lane is idle |
| TunnelProgress.EverythingArrives | internal/client/client.go:586-636 | from any moment of any such run, and without another datagram coming in, the path can be run empty, and then every session's backend has all the session's packets |
| TunnelProgress.StepsPossible | internal/client/client.go:424-453 | in every reachable state a datagram of any session and any length is taken in, cut to MaxPacketSize if longer, and any part of a ring and of the bytes under way can go on |
| TunnelRings.EndToEndRings | internal/client/client.go:539-636 | the same with every lane's ring stepped load by load and store by store by the reader and the lane's writer |
| TunnelRingsProgress.EverythingArrivesRings | internal/client/client.go:586-636 | from any moment of any run in which no writer's timer has been cut short, the path can be run empty by single loads and stores, and then every session's backend has all the session's packets |
| TunnelRingsProgress.ReadPossible | internal/client/client.go:539-567 | in such a run the reader can take the next datagram, of any session and length, whenever it is done with the one before |
| TunnelRings.RingsRefineQueues | internal/client/upstream_ring.go:46-100 | every interleaving with the ring machines is a run of the path with queues that reads the same datagrams |
| TunnelRings.ConsumerDequeues | internal/client/client.go:590-604 | what a lane's writer hands over comes off the front of what was submitted and not yet handed over |
| TunnelLimits.NextOfNoneExactly | internal/server/handlers.go:81-90 | striping off, a MaxPacketSize of at least 1: the prefix property holds in all runs, whatever `Next(0)` takes, exactly when the cipher adds bytes |
| TunnelZero.NextOfNoneFor | internal/server/handlers.go:81-90 | striping off, a MaxPacketSize of at least 1: for any one behaviour of `Next(0)` the prefix property holds in all runs exactly when the cipher adds bytes or `Next(0)` takes nothing however much is buffered |
| TunnelZero.PutBehind | internal/server/handlers.go:56-90 | otherwise a run that fails: it puts as many bytes behind an empty frame as make `Next(0)` take some, and then, in step or out of step with the frames, a packet is missing |
| TunnelZero.OutOfStepBad | internal/server/handlers.go:61-72 | reading from the middle of such a frame never finds a valid header |
| TunnelLimits.Swallowed | internal/server/handlers.go:81-90 | a run that fails: two empty datagrams in one piece, a `Next(0)` that takes all there is, then a packet of one byte |
| TunnelLimits.DiscardsExactly | internal/server/handlers.go:56-90 | the server discards buffered data in no run, whatever `Next(0)` takes, exactly when its MaxPacketSize is at least the client's and the cipher adds bytes |
| TunnelLimits.LimitsExactly | internal/server/handlers.go:74-78 | where `Next(0)` takes nothing or the cipher adds bytes, the server discards in no run exactly when its MaxPacketSize is at least the client's |
| TunnelSafety.RunKeeps | internal/server/handlers.go:55-96 | over every run with no frame empty or `Next(0)` taking nothing, what lies in inbound buffer, wire and ring of a lane is exactly the encoding of the frames sent and not yet handled |
| TunnelSafety.SendFits | internal/client/client.go:539-567 | a packet of at most MaxPacketSize bytes fits its ring slot and yields a frame the server's limit admits |
| TunnelSafety.ParsePart | internal/server/handlers.go:55-96 | any first part of the bytes of good frames parses to the first of those frames without an error, and what is left over still encodes the others |
| TunnelSafety.SentDecrypts | internal/server/server.go:354-402 | decrypting the frames sent for a session gives back exactly its packets, in order |
| TunnelSafety.IdleLane | internal/server/handlers.go:55-96 | a lane with nothing in ring and wire has nothing in its inbound buffer and every frame of it handled |
| TunnelStriped.EndToEndStriped | internal/server/server.go:404-469 | striping on: with nothing left on the way, first packet first, lanes within the skew the window covers, timely arrivals, successful writes, and no frame empty or `Next(0)` taking nothing, the backend has exactly the session's packets, in order |
| TunnelStriped.StripedAlways | internal/server/server.go:404-501 | striping on, at every moment, for any skew of the lanes, any clock and any failing writes: the backend has packets of its session only, each undamaged, in strictly increasing order |
| TunnelRings.StripedAlwaysRings | internal/server/server.go:404-501 | the same with the ring machines in place |
| TunnelRings.EndToEndStripedRings | internal/server/server.go:404-469 | the striped end-to-end statement with the ring machines in place |
| DownstreamOrder.PeersGetSubsequences | internal/server/server.go:514-574 | downstream, across any loss and replacement of a lane's connections and any drops: the client meets no bad header, and what it hands to a session's peer is a subsequence, in order and undamaged, of what the server read from that session's backend |
| DownstreamComplete.PeersGetEverything | internal/server/server.go:514-574 | in a run that loses nothing a session's peer has at every moment the beginning of what its backend sent, and all of it once the lane is idle, also across connections replaced while nothing is unread on them |
| DownstreamComplete.TakenAreHanded | internal/client/client.go:793-821 | across any losses: as long as sessions are known and peers can be written to, what a session's peer has been handed is exactly the decrypted payloads of the session's frames the client has found |
| DownstreamComplete.TakenWerePutOn | internal/server/server.go:105-132 | across any losses the client finds only frames of batches that the server wrote to the connection the client was reading |
| DownstreamComplete.NextGetsThrough | internal/client/client.go:298-332 | from any moment of any run the next datagram of any backend can get through: the client dials anew, the server takes the connection for the lane, and exactly this datagram is handed on |
| DownstreamComplete.NothingHanded | internal/client/client.go:793-814 | nothing is handed to a peer for control frames and heartbeats, nor while its session is unknown or it cannot be written to |
| DownstreamOrder.ClientLimitExactly | internal/client/client.go:680 | the client meets no bad header in any run exactly when the server's MaxPacketSize exceeds its own by at most 2048 |
| DownstreamOrder.RunKept | internal/client/client.go:298-332 | what the client took, what is on its way on the connection it reads, and what is queued together are what was sent on the lane, with gaps |
| TunnelStriped.ArrivalsAreStriped | internal/client/client.go:233-239 | what the reorder buffer is called with for one session among many sharing the lanes is a striped sequence of that session's packets |
| TunnelStriped.SentOnLane | internal/client/client.go:233-239 | lane l carries, in order, exactly the session's numbers congruent to l, each with its packet |
| ReorderStates.ReorderState.WriteUpstreamToBackend | internal/server/server.go:404-469 | the object in place does what the function on values does; with striping off it is one write to the backend |
| ReorderStates.ReorderState.ForceDrainLocked | internal/server/server.go:471-501 | forced drain starts at the least waiting number whatever order the map is iterated in, and terminates |
| ReorderStates.ReorderState.DrainPending | internal/server/server.go:436-447 | the drain loop, with a write that may fail at any packet, is the recursive drain |
| ReorderStates.ReorderState.LeastPending | internal/server/server.go:476-488 | scanning the map in any order finds the least waiting number |
| ReorderStates.ServeSession | internal/server/server.go:404-469 | over a whole list of arrivals the backend holds exactly the payloads the run delivers, in that order |
| Reorder.WindowAlways | internal/server/server.go:404-501 | after every call of every run, failed writes and wrap-around included: waiting numbers lie in (expected, expected + window], fewer than window wait, and none of them is deliverable |
| Reorder.Conservation | internal/server/server.go:426-500 | in every run the arrivals are, as a multiset, what was delivered, waits, was stale, was duplicate, was cleared by a reset, or was lost to a failed write |
| ReorderSteps.ArriveOutcome | internal/server/server.go:404-501 | one arrival in any state of the buffer: which number is written first, that the numbers written go upwards from it until a write fails, which class of the ledger the packet is in, and what the expected number and the time of the last delivery then are |
| ReorderSteps.LastDrainAlways | internal/server/server.go:419-446 | over every run the time the hold is measured from is that of the last arrival that got something delivered, or of the first arrival |
| ReorderSteps.HoldRespected | internal/server/server.go:466-468 | when a packet comes in ahead of its turn, either the last delivery is less than the hold time ago afterwards, or the drain was tried and its first write failed |
| ReorderSteps.AttemptsCounted | internal/server/server.go:503-512 | over every run each attempted write delivered one packet or lost one |
| ReorderOrder.OrderExactly | internal/server/server.go:404-501 | for arriving packets in a given order, every run, whatever the clock and the failing writes, delivers strictly increasing numbers all below the expected one, exactly when none of the packets carries 2^32 - 1 |
| ReorderOrder.IncreasingExactly | internal/server/server.go:404-501 | for the strictly increasing order alone, exactly when none but the last packet carries 2^32 - 1 |
| ReorderSafety.SafeBelowTop | internal/server/server.go:404-501 | if no arrival carries 2^32 - 1, delivery is strictly increasing and the expected number never decreases, for any clock and any failing writes |
| ReorderSafety.RunSound | internal/server/server.go:404-501 | from any moment of a run to any later one nothing delivered is taken back, and short of a wrap the expected number does not go down |
| ReorderSafety.DeliveredArrived | internal/server/server.go:404-501 | every delivered payload came from an arrival with that number, and none is delivered more often than it arrived |
| ReorderSafety.WrapBreaksOrder | internal/server/server.go:427-435 | 2^32 - 1 followed by 0 is delivered in that order, so the condition is needed |
| ReorderCompleteness.ReorderingIsComplete | internal/server/server.go:419-468 | after every arrival of a timely run displaced by less than the window: expected is the least number not arrived, exactly the arrived numbers above it wait, and the output is the unbroken run of first copies |
| ReorderLimits.WindowExactly | internal/server/server.go:452 | that promise holds exactly when the window survives its conversion to uint32, or what is left of it spans all numbers |
| ReorderLimits.DisplacementExactly | internal/server/server.go:452-468 | the displacement the buffer undoes is the window and not one number more |
| Striping.StripingThenReordering | internal/client/client.go:233-239 | round robin over lanes with bounded skew, then reordering, is the identity on 1..n |
| Striping.StripedInWindow | internal/client/client.go:233-239 | lanes within a skew D of each other displace numbers by less than (D + 1) * lanes |
| Striping.LaneLayout | internal/client/client.go:233-239 | how many of 1..n a lane carries and at which place each number sits |
| RingResults.CountersInOrder | internal/client/upstream_ring.go:46-100 | in every interleaving freeHead <= readHead <= tail <= freeHead + capacity |
| RingResults.SlotExclusive | internal/client/upstream_ring.go:46-68 | from acquire to submit the producer's slot is none the consumer may read or still holds |
| RingResults.BytesStable | internal/client/upstream_ring.go:70-100 | packets waiting or batched stay byte for byte what was submitted |
| RingResults.WrittenIsPrefix | internal/client/client.go:586-636 | what is handed to writeUpstreamBatch is a prefix of what was submitted, in every interleaving |
| RingResults.BatchesBounded | internal/client/client.go:606-634 | batches keep both limits at every step, and between flushes freeHead equals readHead |
| RingProgress.ConsumerEmpties | internal/client/client.go:586-636 | in an open ring the consumer alone hands over everything submitted and gives every slot back, from every reachable state in which it is not ending |
| RingProgress.FlushedForCause | internal/client/client.go:615-634 | a batch is flushed only when it is full, the ring is seen empty, or its timer is cut short; a consumer ends only by a cut timer or the close |
| RingProgress.TimerCutShort | internal/client/client.go:615-624 | a consumer whose timer is cut short ends after handing over and giving back exactly what it had popped |
| RingProgress.ProducerSubmits | internal/client/upstream_ring.go:46-68 | in an open ring with a free slot the producer alone submits a packet that fits |
| RingProgress.GivesUpForCause | internal/client/client.go:547-566 | a producer lets go of a packet only once it is submitted, or because the ring is closed, or because the packet is larger than the slot |
| RingResults.DrainedAfterClose | internal/client/upstream_ring.go:70-83 | if no submit is half done when the ring is closed, a consumer that ends has handed everything submitted to writeUpstreamBatch |
| RingClosing.ClosingExactly | internal/client/upstream_ring.go:62-83 | a closed ring is sure to be drained by a consumer that ends because of the close exactly when, in the state it is in, no submit is between its closed test and its increment and the consumer holds no untrue view of an empty ring, or the consumer has already been cut short |
| RingClosing.LateSubmitMissed | internal/client/upstream_ring.go:62-81 | for every capacity and every packet that fits its slot, an interleaving in which the packet is submitted beside close and never popped |
| RingClosing.ConsumerEnds | internal/client/upstream_ring.go:70-83 | with the ring closed the consumer alone gets to its end in finitely many steps |
| RingSafety.RunKeepsInv | internal/client/upstream_ring.go:46-110 | the global invariant of producer, consumer and closer holds over every run |
| RingWrap.RunWrapped | internal/client/upstream_ring.go:52-90 | the ring on wrapping 64-bit counters with masking makes the same steps as the ring on unbounded counters, forever |
| RingWrap.RingFromStart | internal/client/upstream_ring.go:30-44 | so does the ring as constructed, whose capacity is a power of two |
| RingWords.NextPowerOfTwo | internal/client/upstream_ring.go:120-126 | the least power of two that is at least n, for the n for which the loop ends |
| RingWords.LoopEndsExactly | internal/client/upstream_ring.go:120-126 | the doubling on a 64-bit int ever reaches n exactly when n is at most 2^62 |
| RingWords.MaskIsRemainder | internal/client/upstream_ring.go:53 | and-ing with 2^k - 1, bit by bit, is the remainder modulo 2^k |
| RingWords.SlotOfWrapped | internal/client/upstream_ring.go:74 | a wrapped counter picks the slot the unbounded counter picks |
| RingWords.DistanceOfWrapped | internal/client/upstream_ring.go:52 | subtracting wrapped counters gives their true distance |
| UpstreamRings.UpstreamRing.constructor | internal/client/upstream_ring.go:30-44 | a fresh, empty, open ring of distinct slots with the least power-of-two capacity that is at least the asked one |
| UpstreamRings.UpstreamRing.Acquire | internal/client/upstream_ring.go:46-60 | closed, full, or the slot behind tail emptied; nothing queued changes |
| UpstreamRings.UpstreamRing.Submit | internal/client/upstream_ring.go:62-68 | appends the packet to the queue unless the ring is closed |
| UpstreamRings.UpstreamRing.TryPop | internal/client/upstream_ring.go:85-92 | takes the oldest unpopped packet with the bytes it was submitted with, if there is one |
| UpstreamRings.UpstreamRing.Pop | internal/client/upstream_ring.go:70-83 | the same, and reports closed only when nothing is left |
| UpstreamRings.UpstreamRing.Release | internal/client/upstream_ring.go:94-100 | frees the oldest popped slot and no other packet's bytes change |
| UpstreamRings.UpstreamRing.Inflight | internal/client/upstream_ring.go:112-118 | submitted and not yet released; the cap at the capacity never takes effect |
| UpstreamRings.UpstreamRing.Send | internal/client/client.go:547-566 | queues a packet exactly when the ring is open, not full, and the packet fits its slot |
| UpstreamRings.SendAll | internal/client/client.go:547-566 | packets offered one after another to an open ring are taken exactly while there is a slot for them that they fit |
| UpstreamRings.UpstreamRing.Discard | internal/client/upstream_ring.go:102-106 | the acquired slot is emptied and nothing queued changes |
| UpstreamRings.DrainAfterClose | internal/client/upstream_ring.go:70-83 | after a close between operations everything submitted and not popped comes out, in order |
| Framing.ParseSound | internal/protocol/stream.go:64-94 | parsing decomposes the stream into acceptable frames and a stuck remainder |
| Framing.ParseUnique | internal/protocol/stream.go:64-94 | that decomposition is the only one |
| Framing.FramesRoundTrip | internal/protocol/packet.go:57-81 | parsing the concatenated encodings of frames returns the frames and leaves nothing |
| Framing.ChunkingIrrelevant | internal/protocol/stream.go:30-37 | without a bad header every split into reads gives the frames and the residue of one parse of the whole stream |
| Framing.ChunkingUpToError | internal/client/client.go:698-715 | with one, the first read to expose it has yielded exactly the frames before it, the buffer is empty, and parsing starts afresh |
| ServerFraming.FramingsAgree | internal/server/handlers.go:55-96 | the server's framing with limit n and StreamBuffer's with maxPayload n agree, frames and residue, on every list of reads, malformed and oversized input included, exactly when n is positive and `Next(0)` takes nothing |
| ServerFraming.ServerParsesExactly | internal/server/handlers.go:81-90 | on one buffer the server's loop finds what the pure parser finds exactly when `Next(0)` takes nothing behind the parser's empty frames |
| ServerFraming.SolidFeeds | internal/server/handlers.go:55-96 | on every list of reads in which the pure parser meets no empty frame the server's loop finds the same frames and residue |
| Traffic.ReadBoth | internal/protocol/stream.go:64-94 | both implementations run on one list of reads with one limit: for a positive limit the same frames and the same unread bytes unless `Next(0)` swallows something; otherwise the server takes no frame above the limit |
| Traffic.UpstreamReadAll | internal/server/handlers.go:55-96 | all reads of an upstream connection give the frames and residue of the server's framing |
| ServerFraming.RegisterLimit | internal/server/server.go:584-586 | an encodable register frame passes the 64 KiB limit exactly when it has at most 16382 ids, and is decoded to what was sent |
| StreamBuffers.StreamBuffer.Write | internal/protocol/stream.go:30-37 | appends to the unread bytes through compaction and reallocation |
| StreamBuffers.StreamBuffer.NextRef | internal/protocol/stream.go:64-94 | one scan of the unread bytes; the payload is a view into the array, which is not written |
| StreamBuffers.StreamBuffer.Next | internal/protocol/stream.go:51-60 | the same frame with a payload in an array of its own |
| StreamBuffers.StreamBuffer.Reset | internal/protocol/stream.go:45-48 | nothing is left unread; the array is kept |
| StreamBuffers.ReadAndDrain | internal/client/client.go:698-715 | one read and the drain loop: NextRef gives the parsed frames, all but control frames are passed on, a bad header empties the buffer |
| StreamBuffers.ReadAll | internal/client/client.go:680-716 | all reads of a connection: the in-place buffer takes the frames of the pure parser fed the same pieces and keeps the same residue |
| Traffic.UpstreamOnTraffic | internal/server/handlers.go:55-96 | the loop over the inbound buffer gives the frames and residue of the server's framing, for any `Next(0)` |
| Traffic.DownstreamOnTraffic | internal/server/handlers.go:134-182 | the control loop yields the valid lane messages among the frames of the server's framing, in order, for any `Next(0)` |
| Traffic.TakeFrame | internal/server/handlers.go:56-93 | one turn of the loop is one scan, for any `Next(0)`; a bad or oversized header discards all that is buffered |
| Packet.HeaderRoundTrip | internal/protocol/packet.go:38-81 | decoding inverts encoding whatever follows |
| Packet.HeaderRoundTripBack | internal/protocol/packet.go:38-81 | every 20 bytes are the encoding of the header they decode to |
| Packet.MarshalTo | internal/protocol/packet.go:38-46 | writes the 20 bytes in place and no others |
| WireFormat.DataFrameBytes | internal/protocol/packet.go:65-69 | a data frame byte by byte |
| WireFormat.ControlFrameBytes | internal/protocol/control.go:23-94 | a hello, register or heartbeat frame byte by byte |
| WireFormat.BigEndian | internal/protocol/packet.go:38-46 | the numbers in them are big-endian |
| WireFormat.ScanExactly | internal/protocol/stream.go:64-94 | said in bytes: a frame is bad exactly when it does not begin with "TCPP", version 1 and a type from 1 to 3, or is over the limit, and is found exactly when all its bytes are there |
| WireFormat.ControlArrives | internal/server/handlers.go:134-182 | a message with at most 16382 ids, sent to a server with nothing buffered, is handed to handleLaneControl as it was sent |
| WireFormat.DeliverableOne | internal/client/client.go:703-714 | the client passes on every frame but control frames, in order |
| Control.ControlRoundTrip | internal/protocol/control.go:23-83 | unmarshalling undoes marshalling |
| Control.ControlRoundTripBack | internal/protocol/control.go:23-83 | marshalling undoes unmarshalling exactly when the reserved byte is 0 |
| Control.MarshalExactly | internal/protocol/control.go:23-33 | a message has an encoding exactly when its lane is below its lane count and it has at most 65535 ids; which complaint comes first otherwise |
| Control.UnmarshalExactly | internal/protocol/control.go:52-74 | a payload decodes exactly when it has at least 8 bytes, is 8 + 4 * count long, and names a lane below its count |
| Control.DecodesExactly | internal/protocol/control.go:23-83 | a payload decodes exactly when, but for the reserved byte, it is the encoding of some message |
| Control.NoIdsNeeded | internal/protocol/control.go:23-83 | a message without ids, as every hello and heartbeat, takes 8 bytes and reads back |
| Control.MarshalControl | internal/protocol/control.go:23-49 | the buffer filled field by field is the encoding, made exactly for messages with a lane below their lane count and at most 65535 ids, with the same errors |
| Control.UnmarshalLaneControl | internal/protocol/control.go:52-83 | the loop reading ids from the payload gives the decoded message, exactly for payloads of 8 + 4 * count bytes naming a lane below their count, with the same errors in the same order |
| Batching.DownstreamWriter.Run | internal/server/server.go:105-168 | flushed and dropped batches together are the received frames in order; each batch takes every frame that is ready until it is full, or is cut to one by the shutdown; the loop ends only with the last frame, at the shutdown, or with a cut timer, so without those every frame is in some batch; frames given to the asynchronous write stay what they were |
| Batching.DownstreamWriter.TopUp | internal/server/server.go:152-163 | the inner loop takes frames while they are ready and the batch has room, and stops for no other reason |
| Batching.DownstreamWriter.FlushBatch | internal/server/server.go:108-132 | the frames handed over are a copy, so the batch can be used again |
| Batching.UpstreamWriter.Run | internal/client/client.go:586-636 | with producers and close at work between ring operations and during the write: flushed batches are the popped packets in order, within both limits, every popped slot is released, each batch is handed over with its own write's outcome; it ends with nothing left in a closed ring, or in one that nothing more comes to, or with a batch whose timer was cut short |
| Batching.UpstreamWriter.FlushBatch | internal/client/client.go:590-604 | hands over exactly the popped packets and releases them in order, whatever the write's outcome and whatever is submitted meanwhile |
| Batching.UpstreamWriter.Round | internal/client/client.go:606-634 | one round: one batch, cut to its first packet exactly when ctx.Done cut the timer, handed over with its outcome and released |
| Batching.UpstreamWriter.TopUp | internal/client/client.go:626-634 | the inner loop keeps the batch equal to what was popped and within both limits, and stops only when the batch is full or the ring empty |
| SupervisionSafety.AlwaysSupervised | internal/client/client.go:246-296 | in every interleaving a manager waiting without a connection has a token there or on its way, and every dialled connection is in use, in the manager's hands, or closed exactly once |
| SupervisionSafety.WatcherClosesOwn | internal/client/client.go:280-296 | a watcher closes only its own connection, only while that is the lane's, and never touches a newer one |
| SupervisionProgress.EveryScheduleDials | internal/client/client.go:246-296 | on every schedule from every reachable state without a connection, once more steps have changed something than a bound read off the state, the manager has dialled on the way |
| SupervisionProgress.NeverStuck | internal/client/client.go:246-296 | in such a state some thread always has a step that changes it, without new traffic or a Read returning |
| SupervisionConnects.EveryScheduleConnects | internal/client/client.go:246-278 | on every schedule without a failing dial from every reachable state without a connection, once more steps have changed something than a bound read off the state, the lane has been given the connection dialled last |
| SupervisionConnects.NeverStuckWithout | internal/client/client.go:246-278 | until then some thread always has a step that changes something |
| SupervisionConnects.EveryScheduleSettles | internal/client/client.go:246-296 | as long as nothing breaks the connection the lane keeps it, and once the manager has taken more steps than a bound read off the state it waits, with the connection's watcher reading |
| SupervisionConnects.StaysAtRest | internal/client/client.go:249-256 | once no token is left and no other watcher may send one, nobody but the writer takes a step until something breaks the connection |
| SupervisionConnects.Reconnects | internal/client/client.go:246-278 | from every reachable state without a connection some schedule of bounded length gives the lane one |
| SupervisionConnects.LateTokenDrained | internal/client/client.go:407-415 | draining goes on until the channel is found empty: a token sent meanwhile is taken too |
| SupervisionConnects.FailedDialRetries | internal/client/client.go:259-267 | a dial that fails leads back to dialling with nothing else changed |
| SupervisionConnects.FailedWriteDrops | internal/client/client.go:638-661 | a write that fails closes the connection once, takes it from the lane and sends a token |
| SupervisionConnects.BrokenReadDrops | internal/client/client.go:280-296 | a Read that returns on the lane's connection does the same |
| SupervisionConnects.GoodWriteHarmless | internal/client/client.go:638-661 | a batch is written to the lane's connection if it has one, and a write that succeeds leaves everything as it was |
| SupervisionSafety.DialsAgain | internal/client/client.go:246-278 | and there is a schedule of a bounded number of steps that gets to a dial |
| LanesResults.LaneAgreesWithHash | internal/server/server.go:264-271 | in every reachable state the server's lane for a session is the one the hash names, registered or not, and so the client's choice |
| LanesResults.IdsBelong | internal/client/client.go:514-537 | every id in a register queue, pending set or frame on its way belongs to that lane |
| LanesResults.WritersOpen | internal/server/handlers.go:184-230 | a lane writer refers only to an open connection dialled for that lane, and no two writers to the same one |
| LanesResults.LateCloseHarmless | internal/server/handlers.go:121-124 | after a close no writer refers to the connection, and all other writers keep theirs |
| LanesProgress.ClosedForGood | internal/server/handlers.go:121-132 | a closed connection stays closed, and whatever follows no writer that had let go of it gets it back |
| LanesProgress.CloseCloses | internal/server/handlers.go:121-132 | a connection can be closed whenever none of its frames is half handled, and nothing of it is served after that |
| LanesResults.ControlFrameRestores | internal/server/handlers.go:203-229 | any later hello, register or heartbeat of a live connection makes it its lane's connection again |
| LanesProgress.HelloConnects | internal/client/client.go:719-742 | in any state of a lane: connection dropped, another one dialled, hello, and two steps of the server make the new connection the lane's, whatever was there before |
| LanesProgress.HeartbeatRestores | internal/client/client.go:755-757 | a heartbeat makes a connection in use its lane's again if it was not |
| LanesProgress.AllRegistered | internal/client/client.go:514-528 | the register message of registerAllSessionsForLane, handled, stores exactly its sessions under the lane |
| LanesProgress.AnnouncedIsStored | internal/client/client.go:530-537 | from any moment of any run an announced session can go through register queue, pending set and register message until the server has it stored under the hash's lane, with that lane's new connection |
| LanesProgress.QueuesStayBounded | internal/client/client.go:530-537 | in every run no register queue exceeds its 4096 places |
| LanesProgress.ExpireForgets | internal/server/server.go:264-271 | a forgotten session goes back to the lane the hash names and no other session is affected |
| LanesMixed.DanglesExactly | internal/server/handlers.go:184-230 | if a connection named several lanes, after any list of messages and the close some writer still refers to it exactly when a lane it was given to is not the one its context names in the end |
| LanesResults.HashExactly | internal/client/client.go:768-773 | for any lane counts: the server names the hash's lane in every run exactly when every client it listens to has a count that fits 16 bits, or the server's count divides 2^16 |
| LanesResults.Misnamed | internal/client/client.go:768-773 | otherwise a client connects, registers a session, and the server caches a lane the hash does not name |
| LanesResults.CutHarmlessExactly | internal/client/client.go:768-773 | the arithmetic behind it: cutting lane number and count to 16 bits keeps residues right exactly when the count fits, or what is left of it is 0 or divides 2^16 |
| LanesSafety.RunKeeps | internal/client/client.go:719-791 | the invariant of clients, wires and server holds over every run, lane numbers cut to 16 bits included |
| LaneServers.LaneServer.HandleLaneControl | internal/server/handlers.go:184-230 | handled in place, a message does what the steps of the protocol do, up to the last session stored |
| LaneServers.LaneServer.OnClose | internal/server/handlers.go:121-124 | clears the lane of the context only if it still has this connection |
| LaneServers.LaneServer.LaneForSession | internal/server/server.go:264-271 | the cached lane if valid, otherwise the hash |
| LaneServers.HandledFrame | internal/server/handlers.go:184-230 | from beginning to end, a refused message changes nothing, an admitted one makes the connection its lane's, and only a register message touches the cache, for exactly its ids |
| LaneServers.FinishKeeps | internal/server/handlers.go:203-229 | handling a message to its end keeps the protocol's invariant |
| Sessions.TablesAgree | internal/client/client.go:495-512 | up to 2^32 creations, in every run: both tables hold the same sessions one to one under normalised keys, and ActiveSessions is their number exactly while it is below 2^31 |
| Sessions.StepAgrees | internal/client/client.go:504-507 | a step keeps the tables in agreement exactly when it creates no session under an id still in use |
| Sessions.AgreementExactly | internal/client/client.go:495-512 | the tables agree throughout a run exactly when no creation in it reuses a live id |
| Sessions.WrapAliases | internal/client/client.go:504-507 | with one client staying and one coming and going, the session created after 2^32 others shares the first one's id and takes its replies |
| Sessions.KeysExactly | internal/client/client.go:496-497 | two addresses are filed under one key exactly when they are equal or spell one IPv4 endpoint, and no key is IPv4-mapped |
| SessionTables.ClientSessions.GetOrCreateSession | internal/client/client.go:495-512 | the known session refreshed, or a fresh one in both tables under the next id; no other session changes |
| SessionTables.ClientSessions.CleanupSessions | internal/client/client.go:823-850 | the sessions idle for longer than the timeout, and no others, are gone from both tables, in any iteration order; the others are the same objects; the tables agree afterwards if they did before |
| SessionTables.SessionLifetime | internal/client/client.go:823-850 | before ids wrap: a session got at a time is in both tables, as the same object, after a cleanup up to the timeout later, and in neither after a later one |
| SessionTables.ClientSessions.SameObjects | internal/client/client.go:495-512 | while the tables agree, lookup by id finds the very object lookup by address finds |

## Left out

- The gnet engine, sockets, dialling, TCP options, signals, logging, configuration files and UDP reads: only their outcomes appear, as inputs.
- AES-GCM, ChaCha20-Poly1305 and the `none` and `xor` ciphers: a cipher is any pair of functions with the round trip and a fixed overhead.
- Time: no bound on waiting is claimed, because the reorder hold time is looked at only when a packet arrives (ReorderSteps.HoldRespected says what it comes to then). `adaptiveDelay`, tickers and `reconnectDelay` are left out; whether a timer is cut short is an input.
- `Stop` in the supervision model: a dial that completes during shutdown is outside its invariant. The ring model has the closing of the ring.
- The waits of the client's downstream connection manager: the lanes model has connecting and losing a connection, not the token passing between.
- The wrapping of the ring's counters inside the whole-path model: there they count on; that the wrapping ring makes the same steps is proved separately (RingWrap.RunWrapped).
- Lost connections in the upstream path: lanes stay connected and writes to them succeed, as T2D has no retransmission.
- In the downstream path, which connection the server takes for a lane's is arbitrary there, and a session's lane is the hash's (LanesResults.HashExactly); batches are any prefix of the queue (Batching.DownstreamWriter.Run).
- Creation, expiry and teardown of server sessions, and `BackendSession.downstreamConn`, which is written but never used to send. Packets whose payload does not decrypt are dropped.
- `handleUDPZeroCopy`, which is switched off, the payload pool, and statistics except ActiveSessions.
- UpstreamRings.UpstreamRing.Send: one turn, a full ring is returned where the source waits; the copy of the packet into the slot is one step on a value here, because the byte-by-byte copy, with the other threads at work, is in module RingMachine.
- UpstreamRings.UpstreamRing.Acquire: one turn of the waiting loop; the caller sees "full" instead of spinning.
- UpstreamRings.UpstreamRing.Pop: one turn of the waiting loop; the caller sees "empty" instead of spinning.
- LanesResults.LaneAgreesWithHash: takes every client's lane count to fit 16 bits, as the count of 4 fixed in internal/config/config.go:84-85 does; LanesResults.HashExactly covers all counts.
- TunnelSafety.EndToEnd: takes the packet size plus overhead to fit the 32-bit length field and the number of lanes a uint32, as the code's conversions do.
- TunnelStriped.EndToEndStriped: speaks of the moment when nothing is left on the way; TunnelStriped.StripedAlways speaks of every moment before it. Striping is switched off by the configuration's defaults (internal/config/config.go:81), but the code for it is complete.
- RingWords.NextPowerOfTwo: takes arguments up to 2^62, for which the source's loop ends; RingWords.LoopEndsExactly shows that it ends for no others.
- UpstreamRings.UpstreamRing.constructor: takes capacities up to 2^62 for the same reason.
