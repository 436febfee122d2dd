# StellarConduit core: verified model

StellarConduit is a store-and-forward mesh for signed payment envelopes. Devices gossip envelopes over BLE and
WiFi-Direct, sleep when idle, and hand envelopes to a relay node that submits them to the Stellar network. This
project models the parts of the Rust core whose correctness spans several functions or whole runs, and proves
what they promise. `dafny verify dfyconfig.toml` checks everything.

How the model is laid out, one file per component:

| files | component |
|---|---|
| `MeshGraph`, `PathFinder`, `StableSort` | the mesh graph, breadth-first search and ranking of next hops |
| `ChunkCodec`, `Chunker`, `Reassembler`, `ReassemblyRuns`, `WifiStream` | chunking, header encoding, reassembly, stream framing |
| `Messages`, `PriorityQueue`, `QueueOverflow`, `GossipState`, `SyncExchange`, `BloomFilter`, `FanoutRound`, `Mesh`, `MeshCopies`, `MeshProgress` | the gossip engine, from one queue to whole meshes |
| `PowerManager`, `TransportManager`, `TransportRuns` | the power machine, deferred sends, connection bookkeeping |
| `Lru`, `RelayNode`, `RoutingTable` | the two caches |
| `RateLimiter`, `StrikeTracker` | windowed counters |

Code that updates state is a class or a method with loops, proved equal to a function on values; the promises are
then lemmas about runs of those functions. Conventions:

- A `[u8; 32]` is the number its bytes spell in big-endian order (`Core.Key`), so equality and lexicographic order
  are those of the arrays, and the first four bytes are a quotient. Relay distances (`u8`), counters and lengths
  (`usize`) are natural numbers; `usize::MAX` as "no distance" is the sort key `Infinite`. Wire fields keep their
  widths.
- Every clock reading is a parameter, one per call (a receive that reads several chunks takes one for each): whole
  milliseconds, and seconds for urgency and timestamps.
- The network, RPC answers, random ids, hash functions of Bloom filters and the random choice of recipients are
  parameters that range over everything possible.
- Standard-library and crate containers are modelled by their documented behaviour: stable sort by its
  specification, the LRU cache as a recency-ordered sequence, a Bloom filter as a bit set with unknown hash functions
  that are redrawn for every new filter.

The main results, each over all inputs or all runs:

- `PathFinder.RankNextHops`, `PathFinder.SelectionIsClosest`: the ranking is by true shortest distance to a relay.
- `ReassemblyRuns.ChunkedMessageDelivered`, `ReassemblyRuns.BuffersFaithful`: exact out-of-order delivery, and what
  arbitrary frames can never do.
- `WifiStream.StreamRoundTrip`, `WifiStream.BrokenStreamGivesPrefix`: any sequence of messages survives the stream,
  and a stream that breaks off anywhere yields the first of them, whole.
- `ChunkCodec.EncodedLayout`, `WifiStream.ReceiveConsumes`: the header byte by byte, and what a receive does to an
  arbitrary stream.
- `MeshCopies.CopiesCarryTheirPath`, `Mesh.TtlPlusHopsIsConserved`, `Mesh.PushChainsAreBounded`,
  `Mesh.RepeatedPushesAreFarApart`: hop limits, the path of every copy and duplicate suppression in every run of a mesh
  over a network that loses, reorders and duplicates.
- `FanoutRound.ForwardedIff`, `BloomFilter.RecordedIffUncovered`, `MeshProgress.PushCanAlwaysArrive`,
  `MeshProgress.PushBoundIsReached`: exactly what a round sends, exactly when the filter records, and that copies get
  through, as far as their hop limit.
- `SyncExchange.ExchangeState`, `SyncExchange.ExchangeGains`, `SyncExchange.SymmetricExchangeConvergesIff`,
  `SyncExchange.RepeatedExchangeIsEmptyIff`, `GossipState.MacroMergeCompletes`: what anti-entropy reaches, paced or not
  and with or without envelopes waiting from before, exactly when both sides agree, and exactly when a repeat is idle.
- `TransportRuns.DeferredAreAccountedFor`, `TransportRuns.NeverStrandedNorOvertaken`,
  `TransportRuns.NeverStrandedIff`, `TransportRuns.StrandedUntilMarked`, `TransportRuns.PeerCountIsExact`: deferred
  transactions are attempted at most once and in order, exactly when some are stranded, and until when.
- `TransportRuns.ReceiveAnswers`, `TransportRuns.DefersIff`: which message a receive returns and from whom, and what a
  send does.
- `PowerManager.OneFlagPerEpisode`, `PowerManager.SleepsExactlyWhenIdle`: the sleep protocol.
- `RelayNode.SubmitsIff`, `RelayNode.ProofIsStable`, `RoutingTable.RefinesPlainMap`,
  `RoutingTable.ExactWithoutEviction`, `RoutingTable.RouteIsRetainedIff`: the caches.
- `RateLimiter.SlidingPromiseIff`, `StrikeTracker.BanIffHistoryExceeds`: the windowed counters against full history.
- `PriorityQueue.RunConserves`, `PriorityQueue.DrainsCompose`, `QueueOverflow.OverflowDropsOldestIff`: no message is
  lost unaccounted for, and which one an overflow drops.

Where the code and its comments disagree, the model follows the code:

- The rate limiter is documented as a sliding window of at most `capacity` messages
  (`src/security/rate_limit.rs:22-26`). It uses fixed windows that start at a message, and lets through up to
  2·capacity − 1 messages in one window length; `RateLimiter.SlidingPromiseIff` says exactly when the comment is true.
- An overflowing Normal tier is documented to drop the oldest envelope (`src/gossip/queue.rs:9`,
  `src/gossip/errors.rs:25`). A drain leaves what it does not take sorted by urgency at its clock, and the order of the
  tier is from then on that of the drains: of two messages held, the one in front was the more urgent at the latest
  drain both were present for and at which their urgency differed, and the earlier one if there is no such drain
  (`QueueOverflow.TierIsOrdered`, for every run). So an overflow drops the oldest message if and only if no other
  message held comes before it in that order (`QueueOverflow.OverflowDropsOldestIff`);
  `QueueOverflow.OverflowDropsNewerExample` is a run in which one does.
- A deferred transaction is meant to be flushed at the next wake-up. A flush that fails before its last message
  clears the wake-up flag and leaves the rest queued; `TransportRuns.StrandsIff` gives the exact condition on the
  connections and the network, `TransportRuns.NeverStrandedIff` the one for whole runs, and
  `TransportRuns.StrandingExample` a run.
- A relay node is meant to submit an envelope once. A call submits if and only if no earlier call returned a proof for
  the id, or at least as many other ids as the cache holds were cached or hit since the latest that did
  (`RelayNode.SubmitsIff`, for every run). So an accepted envelope is submitted again after its proof was evicted, and
  also when its submission was accepted but the ledger gave no proof (a malformed hash, or a failing ledger lookup):
  `RelayNode.AcceptedIsRepeatedIff` gives the exact condition for the latter on what the network answers.

## Model

| member | source | states |
|---|---|---|
| MeshGraph.SortedList | src/topology/graph.rs:24-31 | any enumeration of a peer set is turned into the strictly increasing list of exactly its elements |
| MeshGraph.MeshGraph.ApplyUpdate | src/topology/graph.rs:21-52 | the origin's neighbours become exactly the announced peers less itself, sorted without repetition; all other nodes keep theirs |
| MeshGraph.MeshGraph.PruneStaleEdges | src/topology/graph.rs:65-103 | exactly the nodes whose last update is longer ago than the timeout lose edges and stamp, all others keep both unchanged, and the number of those removed is returned |
| PathFinder.VisitNeighbors | src/router/path_finder.rs:46-53 | visiting a node's neighbours enqueues each unvisited one once, one deeper, and keeps the queue ordered within one level |
| PathFinder.RelayDistance | src/router/path_finder.rs:28-59 | the search ends, for every finite graph, with the minimum over all reachable nodes with an entry of shortest directed hop count plus entry, and with no distance exactly when there is no such node |
| PathFinder.DepthsComplete | src/router/path_finder.rs:38-54 | when the queue runs empty, every node with a walk of n hops has been met at depth at most n |
| PathFinder.RelayKeyExists | src/router/path_finder.rs:36-58 | every node of every graph has a relay distance in that sense, finite as soon as one reachable node has an entry |
| PathFinder.RankNextHops | src/router/path_finder.rs:15-67 | the ranking is the stable sort of the active peers by their true relay distance, peers without one last |
| PathFinder.SelectionIsClosest | src/router/relay_router.rs:11-23 | the selected fanout takes min(fanout, all) peers and leaves out no strictly closer one |
| PathFinder.RankedClosestFirst | src/router/path_finder.rs:15-67 | a peer ranked before one that is m from a relay, hop count plus entry, is itself at most m from one |
| PathFinder.PruningOnlyLengthens | src/topology/graph.rs:65-103 | forgetting nodes never makes a peer look closer to a relay |
| StableSort.SortCorrect | src/router/path_finder.rs:61-64 | the sort is ordered, a permutation, and keeps the order of equal keys |
| StableSort.StableSortUnique | src/router/path_finder.rs:61-64 | those three facts determine the result |
| ChunkCodec.ParseOfEncode | src/transport/wifi_transport.rs:202-259 | parsing a frame's encoding returns the frame, every field of it |
| ChunkCodec.EncodeOfParse | src/transport/wifi_transport.rs:227-259 | re-encoding a parsed buffer returns the buffer |
| ChunkCodec.DecodeIffEncoded | src/transport/ble_transport.rs:78-112 | decode returns a frame exactly for that frame's encoding, and only if its size field is its payload length |
| ChunkCodec.EncodedLayout | src/transport/wifi_transport.rs:202-209 | byte by byte: message id at 0, total length at 4, offset at 8, payload size at 12, each least significant byte first, payload from 14 on |
| Chunker.MessageChunker.Chunk | src/transport/unified.rs:22-62 | the splitting loop computes the specified frame sequence |
| Chunker.ChunkTiles | src/transport/unified.rs:22-62 | no frames exactly for empty, oversized or MTU-too-small input; otherwise the frames fit the MTU, do not overlap and concatenate to the message |
| Chunker.FramesCover | src/transport/unified.rs:46-59 | every byte of the message lies in some frame |
| Chunker.RefusedIff | src/transport/unified.rs:22-38 | a message is cut into no frames exactly if it is empty, the MTU is at most 14, or it is longer than 1 048 576 bytes |
| Chunker.FramesAreFull | src/transport/unified.rs:34-59 | all frames but the last carry exactly the MTU less 14 bytes, at most 65 535, and there are no more frames than that takes |
| Reassembler.CopyPayload | src/transport/unified.rs:116-124 | the byte loop writes the payload at its place and counts exactly the newly marked positions |
| Reassembler.MessageReassembler.ReceiveChunk | src/transport/unified.rs:84-133 | the in-place loop over a chunk computes `Receive`: new buffers and completed message, all rejections included |
| Reassembler.MessageReassembler.CleanupStaleBuffers | src/transport/unified.rs:135-140 | exactly the buffers untouched for longer than the timeout are dropped |
| Reassembler.FrameEffects | src/transport/unified.rs:84-133 | the exact condition under which a frame is refused with nothing changed, in numbers; an accepted one leaves a buffer stamped now or, on completion, none; buffers under other ids are never touched |
| Reassembler.SweepKeeps | src/transport/unified.rs:135-140 | a sweep keeps exactly the buffers whose last update plus the timeout is not before now, unchanged |
| ReassemblyRuns.ReceiveAgrees | src/transport/unified.rs:101-132 | an accepted frame completes its buffer exactly if every position has then been supplied, and the result is the last supplied byte everywhere |
| ReassemblyRuns.StepKeepsInv | src/transport/unified.rs:84-140 | any frame or sweep keeps count, marks and data in agreement with the accepted frames, with no complete or oversized buffer left |
| ReassemblyRuns.BuffersFaithful | src/transport/unified.rs:84-140 | after any run of arbitrary frames and sweeps, count = marks, each marked byte is the last accepted one, no buffer complete or over 1 MiB |
| ReassemblyRuns.LogComesFromRun | src/transport/unified.rs:84-133 | the accepted frames of a buffer all arrived in the run under its id and are well formed |
| ReassemblyRuns.ReturnedBytesWereSupplied | src/transport/unified.rs:126-130 | a returned message has no byte that an accepted frame did not supply |
| ReassemblyRuns.DeliveredExactlyOnCompletion | src/transport/unified.rs:84-133 | from any reachable state without a buffer for the id: while a message is incomplete, a further piece returns exactly the message if it brings the last missing byte, otherwise nothing |
| ReassemblyRuns.ChunkedMessageDelivered | src/transport/unified.rs:22-133 | from any such state, frames of one message in any order, repeated before completion and interleaved with anything under other ids, yield the message exactly when the last unseen frame arrives, and free the id |
| WifiStream.WifiDirectConnection.Send | src/transport/wifi_transport.rs:192-215 | a connected send appends the framed chunks to the stream, or, on a connection that breaks, what gets through of them, and reports the break; otherwise nothing |
| WifiStream.WifiDirectConnection.Recv | src/transport/wifi_transport.rs:217-267 | the receive loop consumes the stream, one clock reading per chunk, and changes the buffers as the recursive reader `ReceiveMessage` does, errors included |
| WifiStream.ReceiveConsumes | src/transport/wifi_transport.rs:217-267 | from any stream and any buffers a receive takes whole chunks, one clock reading each, feeds them to the reassembler up to and with the first that completes a message, and returns that message; it fails exactly if none does, with the error of the frame behind them, or with a broken pipe if that is shorter than a header |
| WifiStream.FrameLayout | src/transport/wifi_transport.rs:134-146 | a frame on the wire is its length in four bytes, least significant first, then the data |
| WifiStream.ReadsIff | src/transport/wifi_transport.rs:148-166 | what reading a frame answers, from the value of the first four bytes: a stream too short, a length of 0 or above 4 194 304, data cut off, or the data, and then the stream behind it |
| WifiStream.SentLength | src/transport/wifi_transport.rs:192-215 | a message takes its own bytes on the wire and 18 for each of as few frames of up to 1434 bytes as it can be cut into; nothing is sent exactly if it is empty or longer than 1 MiB |
| WifiStream.ReadBackFrame | src/transport/wifi_transport.rs:134-166 | a frame of 1 byte to 4 MiB is read back and the rest of the stream is untouched |
| WifiStream.RecvOfSend | src/transport/wifi_transport.rs:192-267 | one sent message is received exactly, leaving the following bytes and no buffer, whatever the clock shows at each chunk |
| WifiStream.StreamRoundTrip | src/transport/wifi_transport.rs:134-267 | any sequence of sends, colliding message ids included, is received as the same sequence at any clock readings; exactly the refused (empty or oversized) messages are missing |
| WifiStream.BrokenStreamGivesPrefix | src/transport/wifi_transport.rs:134-267 | wherever the stream of any sends breaks off, the messages received are the first ones sent, whole and in order |
| PriorityQueue.PriorityQueue.Push | src/gossip/queue.rs:91-123 | the message enters its tier and an overflow returns the tier's front |
| PriorityQueue.PriorityQueue.Pop | src/gossip/queue.rs:126-137 | the front of the best non-empty tier is removed |
| PriorityQueue.PriorityQueue.DrainBatch | src/gossip/queue.rs:142-158 | draining takes the first batch-size messages of the tier sorted by falling urgency and leaves the rest in that order |
| PriorityQueue.DrainIsStablePrefix | src/gossip/queue.rs:142-158 | batch followed by remainder is the tier stably sorted by falling urgency, and the batch has min(n, held) messages |
| PriorityQueue.DrainTakesMostUrgent | src/gossip/queue.rs:142-158 | batch followed by remainder is the tier by falling urgency score, messages of one score in the order in which they were held |
| PriorityQueue.DrainsCompose | src/gossip/queue.rs:142-158 | under one clock reading, draining a then b is draining a + b |
| PriorityQueue.UrgencyOrders | src/gossip/queue.rs:51-69 | between two envelopes of which the one with fewer or equally many hops left is at least as old, it is at least as urgent, and strictly more urgent if it has fewer hops left, below 16 |
| PriorityQueue.MinuteCountsAsHop | src/gossip/queue.rs:51-69 | every full minute of age up to ten counts as much as one hop less below 16; age within a minute and beyond ten makes no difference; no age and 16 hops make urgency 0 |
| PriorityQueue.RunConserves | src/gossip/queue.rs:91-158 | in every run pushed = popped + drained + dropped + held, tiers within 10 000 and 500, Normal holds transactions only |
| PriorityQueue.PopTakesBestPriority | src/gossip/queue.rs:126-137 | in every run pop returns a message of the best priority held, and nothing only when empty |
| PriorityQueue.ArrivalOrderWithoutPartialDrains | src/gossip/queue.rs:98-109 | while no drain leaves a remainder, the tier is the latest transactions in arrival order, so the front that an overflow drops is the oldest |
| PriorityQueue.TiersByKind | src/gossip/queue.rs:23-47 | in every run each tier holds exactly its kinds of message: topology updates more than 5 hops from a relay and handshakes Low, other control messages High, transactions Normal, within 10 000 and 500 |
| PriorityQueue.DropsIff | src/gossip/queue.rs:91-123 | in every run a push drops a message if and only if it is a transaction and 10 000 are held, or of a Low kind and 500 are held |
| PriorityQueue.OuterTiersAreFifo | src/gossip/queue.rs:91-137 | in every run what has left the High or the Low tier, followed by what it holds, is what was pushed into it, in order |
| QueueOverflow.TierMatches | src/gossip/queue.rs:91-158 | the run that also keeps the place of arrival of each message has the messages of the queue |
| QueueOverflow.TierIsOrdered | src/gossip/queue.rs:91-158 | in every run of pushes, overflows, pops and drains, of two messages held the one in front was the more urgent at the latest drain both were present for and at which their urgency differed, and arrived first if there is none |
| QueueOverflow.OverflowDropsOldestIff | src/gossip/queue.rs:91-158 | in every run a push that finds the tier full drops the message that comes before all others held; it is the oldest if and only if no other message held comes before the oldest in the order of the drains |
| QueueOverflow.OverflowDropsNewerExample | src/gossip/queue.rs:98-158 | a run of a new queue in which the overflow drops a message that arrived after one still held |
| GossipState.GossipState.AddEnvelope | src/gossip/protocol.rs:50-59 | the envelope is pushed and an overflow reports the id pushed out |
| GossipState.GossipState.ProcessPacedRecoveryBatch | src/gossip/protocol.rs:65-79 | the loop moves min(batch size, backlog) envelopes from the front of the backlog |
| GossipState.GossipState.GenerateSyncRequest | src/gossip/protocol.rs:81-92 | one prefix per transaction held, the first four bytes of its id, over all tiers and in queue order |
| GossipState.GossipState.HandleSyncRequest | src/gossip/protocol.rs:94-106 | the reply is the held envelopes at increasing positions, unchanged, and these are exactly the positions whose prefix was not listed |
| GossipState.UnlistedUnique | src/gossip/protocol.rs:94-106 | that description determines the reply |
| PriorityQueue.PriorityQueue.IterEnvelopes | src/gossip/queue.rs:171-180 | the loop yields the transactions of the three tiers, High before Normal before Low |
| PriorityQueue.EnvelopesAreNormal | src/gossip/queue.rs:171-180 | in every run the envelopes iterated over are exactly those of the Normal tier, in its order |
| GossipState.GossipState.HandleSyncResponse | src/gossip/protocol.rs:108-118 | small replies are merged, large ones replace the backlog, as specified on values |
| GossipState.AddAllKeepsNewest | src/gossip/protocol.rs:50-59 | adding envelopes one by one keeps exactly the newest 10 000 of the tier followed by them |
| GossipState.PacedSchedule | src/gossip/protocol.rs:65-79 | after any schedule of batch sizes the tier is the newest 10 000 of old tier plus moved prefix, the rest of the backlog waits in order |
| GossipState.MacroMergeCompletes | src/gossip/protocol.rs:65-118 | tier followed by backlog is, at every paced step, the old tier followed by the reply stably sorted by timestamp |
| GossipState.LargeReplyOldestFirst | src/gossip/protocol.rs:108-118 | a reply above 500 changes only the backlog, to its envelopes with ascending timestamps, those of equal timestamp in the order of the reply; a smaller one leaves the backlog alone |
| GossipState.SecondMergeOverwrites | src/gossip/protocol.rs:115-117 | a second large reply discards exactly what was still waiting of the first |
| SyncExchange.ExchangeState | src/gossip/protocol.rs:50-118 | after an exchange, for every requester with or without waiting envelopes, every responder and every pacing schedule, the tier is the newest 10 000 of the old tier followed by what entered, and exactly the rest waits |
| SyncExchange.ExchangeGains | src/gossip/protocol.rs:81-118 | with room for what enters, the ids held or waiting afterwards are those held before, the responder's without a prefix collision, and after a small reply what waited; once the whole reply has entered, the requester lacks exactly the responder's ids that collide with one it held and came in no other way |
| SyncExchange.ExchangeUnderOverflow | src/gossip/protocol.rs:50-118 | fitting or not, between any two queues within their bounds: what enters is in the tier afterwards, what is pushed out is the front of the requester's own tier, and what waited before a small reply and was not paced in still waits |
| SyncExchange.ExchangeGivesUnion | src/gossip/protocol.rs:81-118 | without collisions the requester ends with the union, and what it paced in besides, for small replies and for large ones paced in completely |
| SyncExchange.SymmetricExchangeConverges | src/gossip/protocol.rs:81-118 | without collisions an exchange each way makes both id sets the union, the second one besides with what it paced in of what waited there |
| SyncExchange.SymmetricExchangeConvergesIff | src/gossip/protocol.rs:81-118 | the exact condition for equal id sets after an exchange each way, whatever waited and was paced in; with nothing old paced in it is that no id held by one side only shares its prefix with an id of the other side |
| SyncExchange.RepeatedExchangeIsEmpty | src/gossip/protocol.rs:94-106 | once the whole reply has entered, an immediate repeat gets an empty reply, collisions or not |
| SyncExchange.RepeatedReplyIds | src/gossip/protocol.rs:81-118 | the ids in the reply to an immediate repeat are exactly the responder's that still wait at the requester and share no prefix with an id it holds |
| SyncExchange.RepeatedExchangeIsEmptyIff | src/gossip/protocol.rs:81-118 | the repeat gets an empty reply if and only if the whole reply has entered or all that waits of it collides with what has entered |
| SyncExchange.UnpacedReplyIsSentAgain | src/gossip/protocol.rs:81-118 | a reply above 500 that has not been paced in yet is sent again in full, because requests list the queue only |
| BloomFilter.SlidingBloomFilter.CheckAndAdd | src/gossip/bloom.rs:95-104 | reports exactly whether either window covers the id; a fresh id is appended to the history and set in the current window, after rotation if full |
| BloomFilter.SlidingBloomFilter.Add | src/gossip/bloom.rs:87-93 | as check-and-add, without the answer |
| BloomFilter.SlidingBloomFilter.RotateIfFull | src/gossip/bloom.rs:106-112 | a full current window becomes the previous one and an empty one, with new hash functions, takes its place |
| BloomFilter.AddedKeepsWindows | src/gossip/bloom.rs:87-112 | the two filters always hold exactly the last partial block of fresh ids and the full block before it |
| BloomFilter.RecordedIffUncovered | src/gossip/bloom.rs:82-104 | for every windowed filter and id: reported seen if and only if its bit positions are covered by those of the ids in the current window, or in the previous one under that window's hash functions; if so nothing changes, otherwise it is recorded |
| BloomFilter.RunKeepsInv | src/gossip/bloom.rs:82-112 | in every run, under any hash functions, the windows are right and ids inserted near each other differ |
| BloomFilter.RunRemembersThenForgets | src/gossip/bloom.rs:82-112 | an insertion is reported seen through the next capacity fresh insertions and is in neither window after twice as many |
| BloomFilter.RepeatsAreFarApart | src/gossip/bloom.rs:82-112 | in every run two fresh insertions of one id are more than capacity other, mutually different ids apart |
| FanoutRound.Judge | src/gossip/protocol.rs:250-271 | an envelope is dropped as seen, dropped as expired or forwarded with one hop less; a fresh id is recorded in the filter even when the envelope has expired |
| FanoutRound.ForwardBatch | src/gossip/protocol.rs:245-283 | the loop judges the batch in order against the evolving filter, sends each survivor to every recipient and tallies |
| FanoutRound.ExecuteFanoutRound | src/gossip/protocol.rs:198-304 | one round drains the batch, consults the filter per envelope, sends each surviving copy with one hop less to every recipient, and tallies |
| FanoutRound.FanoutTarget | src/gossip/fanout.rs:22-46 | with unknown mesh size the fanout is the active count up to 6 and 3 beyond |
| FanoutRound.RoundAccounting | src/gossip/protocol.rs:228-283 | drained = forwarded + dropped as seen + dropped as expired, and drained is min(32, held) |
| FanoutRound.BatchIsMostUrgent | src/gossip/protocol.rs:228-243 | a round takes the most urgent envelopes held, by falling urgency score and for one score in the order held, and changes nothing else of the state |
| FanoutRound.VerdictIff | src/gossip/protocol.rs:245-271 | with the filter as the earlier envelopes of the batch left it: dropped as seen if and only if the filter reports the id, forwarded if and only if it does not and hops are left, with one hop less and otherwise unchanged |
| FanoutRound.RoundRecords | src/gossip/protocol.rs:250-257 | each id of the batch is recorded if and only if the filter did not report it, hops left or not |
| FanoutRound.ForwardedIff | src/gossip/protocol.rs:245-283 | what a round sends to whom: to every recipient, and nobody else, exactly the drained envelopes the filter did not report that had hops left, with one hop less |
| FanoutRound.SendsCount | src/gossip/protocol.rs:271-281 | every forwarded envelope is sent once to each recipient |
| FanoutRound.RoundCounts | src/gossip/protocol.rs:250-283 | the duplicate counter is the number of reported envelopes, the hop counter that of the unreported ones without hops left, the forwarded counter the rest |
| FanoutRound.PushesAreInsertions | src/gossip/protocol.rs:250-283 | every forwarded envelope is its own fresh insertion of the filter, in order |
| FanoutRound.SendsComeFromBatch | src/gossip/protocol.rs:269-281 | everything sent is a drained envelope with hops left, less one, to a recipient |
| Mesh.StepKeepsInv | src/gossip/protocol.rs:50-304 | every step of the mesh, under loss, delay, reordering and duplication, keeps all copies genuine and all nodes valid |
| Mesh.TtlPlusHopsIsConserved | src/gossip/protocol.rs:94-304 | in every run every queued, waiting or in-flight copy is an originated envelope unchanged but for its ttl, and ttl plus push hops travelled is the originating ttl |
| Mesh.PushChainsAreBounded | src/gossip/protocol.rs:260-271 | no chain of pushes is longer than the ttl it starts with, in any run |
| Mesh.RepeatedPushesAreFarApart | src/gossip/protocol.rs:245-283 | in every run two pushes of one id by one node are more than capacity other fresh ids apart |
| MeshProgress.RoundSends | src/gossip/protocol.rs:198-304 | a round adds to the network exactly the drained, unreported envelopes with hops left, with one hop less, to every recipient |
| MeshProgress.RoundPushes | src/gossip/protocol.rs:245-283 | the copies a round sends are exactly those it records as pushed by the node |
| MeshProgress.RoundHops | src/gossip/protocol.rs:245-283 | and exactly those it records as push hops of the mesh |
| MeshProgress.ArrivalIsHeld | src/gossip/protocol.rs:50-59 | an arriving copy becomes the newest of its receiver's Normal tier; only a tier of 10 000 loses its front |
| MeshProgress.PushCanAlwaysArrive | src/gossip/protocol.rs:198-304 | in every run: what a round takes, unreported and with hops left, can reach every recipient at any later time, which then holds it with one hop less |
| MeshProgress.ExchangeInMesh | src/gossip/protocol.rs:81-118 | request, its delivery, the delivery of the reply and paced batches give the requester exactly what an exchange of two nodes gives it, and change no other node |
| MeshProgress.PushBoundIsReached | src/gossip/protocol.rs:198-304 | for every envelope, number of hops up to its ttl and filter capacity there is a run in which it is originated, pushed on that often and held by the last node: the bound on push chains is reached |
| MeshCopies.CopiesCarryTheirPath | src/gossip/protocol.rs:50-304 | in every run each queued, waiting or travelling copy, tagged through rounds, replies and merges, comes from an origination by its source; its ttl plus the length of its path is the originating ttl, and each node of the path has pushed it with the ttl it had there |
| MeshCopies.TaggedRunIsRun | src/gossip/protocol.rs:50-304 | without its tags a tagged run is a run of the mesh |
| MeshCopies.EveryRunIsTagged | src/gossip/protocol.rs:50-304 | every run of the mesh is a tagged run without its tags |
| PowerManager.PowerManager.Tick | src/transport/power.rs:194-226 | idle timeout, sleep flag and wake-up are decided in that order, and the whole new state and decision are fixed (`Ticked`) |
| PowerManager.PowerManager.RecordIncomingTransaction | src/transport/power.rs:168-175 | the machine is awake afterwards with the idle clock restarted and nothing pending (`IncomingRecorded`) |
| PowerManager.PowerManager.RecordOutboundTransaction | src/transport/power.rs:177-192 | asleep outside the awake window the transaction is marked pending, otherwise the machine is awake with the idle clock restarted (`OutboundRecorded`) |
| PowerManager.PowerManager.SetState | src/transport/power.rs:99-119 | state and legacy mode move together, and exactly the low-power states yield flags to broadcast (`StateSet`) |
| PowerManager.TickInNumbers | src/transport/power.rs:194-226 | in milliseconds: 300 000 idle ones put a high-power machine into low power; a pending message wakes a sleeping one in the first 500 of every 5 000; both interfaces are on exactly in high power or in such a window, never only one |
| PowerManager.ActivityInNumbers | src/transport/power.rs:168-192 | an incoming transaction makes the machine as new; an outbound one only restarts the idle clock, unless the machine sleeps outside the first 500 ms of 5 s, where it is marked pending |
| PowerManager.StateSetMeans | src/transport/power.rs:99-119 | a manual change sets state and mode and nothing else, and broadcasts the flag of its low-power state, or none |
| PowerManager.ActiveIffHighPower | src/transport/power.rs:99-226 | in every run the state is Active exactly in high-power mode |
| PowerManager.RunKeepsPowerInv | src/transport/power.rs:168-226 | without manual state changes a pending transaction implies low power and the sleep flag marks exactly low power |
| PowerManager.OneFlagPerEpisode | src/transport/power.rs:194-207 | GoToSleep is emitted exactly by the calls that enter low power, once per episode |
| PowerManager.SleepsExactlyWhenIdle | src/transport/power.rs:197-202 | a tick puts a high-power machine to sleep exactly when the timeout has passed since the run's latest activity |
| PowerManager.AwakeWithinTimeout | src/transport/power.rs:168-226 | within five minutes of an activity the machine stays in high power and emits nothing, whatever happens |
| PowerManager.BarrierIsNextAwakeStart | src/transport/power.rs:155-166 | the barrier lies within 5 s, is an awake instant, and no awake window starts before it |
| TransportManager.TransportManager.WithPowerManager | src/transport/unified.rs:232-258 | a new manager, over a power machine in any state, has no connections, no queue and a zero counter |
| TransportManager.TransportManager.Connect | src/transport/unified.rs:275-318 | the preference, the WiFi attempt and the BLE attempt decide the connection; the counter follows the map |
| TransportManager.TransportManager.SendNow | src/transport/unified.rs:665-689 | the message is attempted on the peer's connection; a broken pipe is replaced by a BLE connection and retried once; one attempt with peer, message and outcome is recorded, and the counter follows the map and never underflows |
| TransportManager.TransportManager.NotifyMacRotated | src/transport/unified.rs:695-715 | exactly the BLE connections are dropped, each decrement backed by a removal |
| TransportManager.TransportManager.PowerTick | src/transport/unified.rs:635-663 | inbound registration, power tick, MAC rotation and flush happen in that order; a failed send stops the flush and leaves the rest queued |
| TransportManager.TransportManager.FlushPending | src/transport/unified.rs:651-656 | the queued messages are sent to their peers from the front until the queue is empty or a send fails |
| TransportRuns.FlushAttempts | src/transport/unified.rs:651-656 | the attempts a flush makes are the front of the queue in order, all but possibly the last delivered; it fails exactly by an undelivered one |
| TransportManager.TransportManager.ProcessBleIncoming | src/transport/unified.rs:603-620 | every completed inbound handshake is registered in order, the counter with it |
| TransportManager.TransportManager.SendTo | src/transport/unified.rs:331-353 | a transaction is deferred exactly in low power outside the awake window, anything else is sent at once |
| TransportManager.TransportManager.RecvAny | src/transport/unified.rs:362-411 | the poll loop computes `ReceivedAny`, the answer that `TransportRuns.ReceiveAnswers` describes, and replaces broken connections on the way |
| TransportManager.TransportManager.DisconnectPeer | src/transport/unified.rs:415-423 | the peer's connection and its count go together |
| TransportManager.TransportManager.Shutdown | src/transport/unified.rs:426-433 | connections, counter and queue are cleared |
| TransportManager.TransportManager.RegisterInbound | src/transport/unified.rs:594-598 | the counter rises exactly when a new slot is taken |
| TransportRuns.ReceiveAnswers | src/transport/unified.rs:362-411 | after a tick that succeeds with an interface on, the answer is the message of the first poll of a held connection that yields one, with that connection's remote peer, and nothing exactly if no poll yields; the connections are those the polls up to then leave; a transaction leaves the power machine in high power with its idle clock at now |
| TransportRuns.BrokenIsReplaced | src/transport/unified.rs:400-406 | a connection that breaks during a poll is gone, a fresh BLE one to its remote peer is held exactly if the fallback connects, every other one stays |
| TransportRuns.BrokenAreGone | src/transport/unified.rs:400-406 | after any polls, the key of each connection that broke during one of them is free or holds a fresh BLE connection |
| TransportRuns.DefersIff | src/transport/unified.rs:331-353 | a send fails exactly with its tick, is deferred exactly if it is a transaction, in low power after the tick and outside the first 500 ms of 5 s, and otherwise is attempted at once, to its peer, with the answer whether it was delivered |
| TransportRuns.SendOnConnections | src/transport/unified.rs:665-689 | a send leaves all connections alone, except that a broken one of its peer is replaced by a BLE one if the fallback connects and removed if not |
| TransportRuns.SendSucceedsIff | src/transport/unified.rs:665-689 | a send reports success if and only if its peer is connected and the connection takes the message, or breaks and a BLE fallback connects and takes it |
| TransportRuns.SendOnPower | src/transport/unified.rs:331-353 | a send, transaction or not, marks a machine pending that sleeps outside the first 500 ms of 5 s, and otherwise makes it active with its idle clock at now |
| TransportRuns.TickOnConnections | src/transport/unified.rs:635-663 | before it flushes a tick leaves the registered connections, of them only the WiFi ones if the MAC rotated; without a wake-up that is all it does |
| TransportRuns.FlushOnConnections | src/transport/unified.rs:651-689 | a flush leaves the connections of peers with nothing queued alone and at most replaces others by BLE ones or removes them |
| TransportRuns.ConnectMeans | src/transport/unified.rs:275-318 | WiFi exactly if it is not excluded and connects; BLE exactly if it connects and is the preference, or WiFi is not demanded and has no address, is refused or times out; otherwise no change |
| TransportRuns.RotationKeepsWifi | src/transport/unified.rs:695-715 | exactly the WiFi connections stay, as they were |
| TransportRuns.InboundRegistered | src/transport/unified.rs:603-620 | each peer's latest handshake is its connection afterwards, all other connections stay |
| TransportRuns.TickReports | src/transport/unified.rs:635-663 | a successful tick reports the power decision's interfaces and flags, a rotation if one was due, and how many messages left the queue |
| TransportRuns.PeerCountIsExact | src/transport/unified.rs:275-729 | over every run with any failures the counter is the number of active connections |
| TransportRuns.DeferredAreAccountedFor | src/transport/unified.rs:339-349 | over every run before shutdown, the deferred transactions are, in order, those that flushes have attempted to send, each once and to its own peer, followed by those still queued |
| TransportRuns.NeverStrandedNorOvertaken | src/transport/unified.rs:331-411 | if no flush fails before its last send, a non-empty queue implies low power with the flag set, and the transactions that sends have been attempted for, followed by those queued, are the accepted ones in order |
| TransportRuns.NeverStrandedIff | src/transport/unified.rs:331-411 | over every run before shutdown nothing is ever stranded if and only if no flush fails before its last send |
| TransportRuns.DeliveredInSubmissionOrder | src/transport/unified.rs:331-353 | then the transactions that connections took were accepted in that order |
| TransportRuns.AwakeTickEmptiesQueue | src/transport/unified.rs:651-656 | then the first tick in an awake window that does not fail early empties the queue |
| TransportRuns.StrandsIff | src/transport/unified.rs:651-656 | a tick strands transactions if and only if it wakes the network and some queued message other than the last has no connected peer, or its connection refuses it, or breaks without a BLE fallback that takes it |
| TransportRuns.StrandedAreBehindFailure | src/transport/unified.rs:651-656 | the first message whose send fails is lost and exactly those behind it stay queued |
| TransportRuns.StrandedIsOvertaken | src/transport/unified.rs:331-353 | within the idle timeout a stranded transaction is not flushed while a new one is sent at once |
| TransportRuns.StrandedUntilMarked | src/transport/unified.rs:331-411 | a stranded queue stays as it is, with no attempt to send any of it, through any run in which no message is sent in low power outside the awake window |
| TransportRuns.MarkedIsFlushed | src/transport/unified.rs:331-353 | such a message sets the wake-up flag again, and the next tick in an awake window that does not fail early empties the queue |
| TransportRuns.RunKeepsPowerInv | src/transport/power.rs:168-226 | over every run of a manager a pending wake-up implies low power and the sleep flag marks low power, if that held at the start |
| TransportRuns.StrandingExample | src/transport/unified.rs:651-656 | in a run of a new manager two transactions for unconnected peers are deferred while it sleeps, and the next awake tick loses one and strands the other |
| Lru.UseKeepsBound | src/relay/dedup.rs:36-49 | hits and insertions keep keys distinct and the size within capacity |
| Lru.OtherUseKeepsProtected | src/relay/dedup.rs:36-49 | using another key cannot evict an entry while fewer keys than the capacity have been used since it |
| Lru.PutKeepsPlaced | src/relay/dedup.rs:36-49 | an entry lies right behind exactly the other keys used since it was, and is evicted exactly when they reach the capacity |
| RelayNode.RelayNode.SubmitWithRetry | src/relay/mod.rs:110-144 | the loop submits the specified number of times, returns the last answer and counts submissions minus one as retries |
| RelayNode.SubmissionsBounded | src/relay/mod.rs:110-144 | between 1 and max(1, max_attempts) submissions; only failures other than a rejection are retried, and such a failure is final only when the attempts are used up |
| RelayNode.HashRoundTrip | src/relay/mod.rs:197-203 | 32 bytes written as hexadecimal, with or without 0x, decode to themselves |
| RelayNode.HashAcceptedIff | src/relay/mod.rs:197-203 | a hash is accepted if and only if it is 64 hexadecimal digits, with or without 0x in front |
| RelayNode.HexIgnoresCase | src/relay/mod.rs:197-203 | upper-case and lower-case digits decode to the same bytes |
| RelayNode.ProofBindsLedger | src/relay/mod.rs:163-185 | when a submission is accepted and the ledger answers, the proof signs exactly the accepted hash, ledger hash and sequence |
| RelayNode.RelayNode.ProcessEnvelope | src/relay/mod.rs:150-194 | a hit answers from the cache; otherwise result, cache, counters, submissions and reward are those of `Process` |
| RelayNode.CachedIffOk | src/relay/mod.rs:155-193 | exactly a successful call leaves its proof cached as most recent; a failed one leaves the cache unchanged |
| RelayNode.CallCounts | src/relay/mod.rs:110-194 | what a call counts: nothing on a hit; otherwise its submissions, one retry fewer, one acceptance exactly if the last submission was accepted, one rejection exactly if it was rejected, a reward exactly if a proof is returned; an error of the last submission is the answer |
| RelayNode.FirstFailureReported | src/relay/mod.rs:163-185 | after an accepted submission a failing call reports the first of: a malformed transaction hash, the sequence lookup's error, the hash lookup's error, a malformed ledger hash |
| RelayNode.ProofIsStable | src/relay/mod.rs:150-194 | once a proof was returned, later calls for the id return it with no submission, reward or counter change while fewer other ids were used since than the configured capacity (1000 if that is 0) |
| RelayNode.SubmitsIff | src/relay/mod.rs:150-194 | in every run of a new node a call submits if and only if no earlier call returned a proof for the id, or at least as many other ids as the configured capacity (1000 if that is 0) were cached or hit since the latest that did |
| RelayNode.ProvenIsResubmittedIff | src/relay/mod.rs:150-194 | from any cache, after a call that returned a proof, a later call submits if and only if at least as many other ids as the configured capacity (1000 if that is 0) were cached or hit since the id was last proven |
| RelayNode.AcceptedIsRepeatedIff | src/relay/mod.rs:163-187 | an accepted submission is submitted again by an immediate repeat if and only if the id was not cached, the last attempt was accepted, and its hash or the ledger's is malformed or a ledger lookup fails |
| RelayNode.AcceptedTwice | src/relay/mod.rs:179-187 | for any 32-byte transaction id and any error of the ledger lookup, the call returns that error after an accepted submission, and so does the repeat |
| RoutingTable.RoutingTable.Lookup | src/router/table.rs:28-40 | the cached value, a recency update and the right counter |
| RoutingTable.RoutingTable.Insert | src/router/table.rs:43-45 | the destination becomes the most recent entry, the oldest falls out when full |
| RoutingTable.RoutingTable.Refresh | src/router/table.rs:49-56 | the entries are put in order and the refresh counted once |
| RoutingTable.RoutingTable.Invalidate | src/router/table.rs:67-84 | the loops remove exactly the routes to or through the peer |
| RoutingTable.RoutingTable.Clear | src/router/table.rs:87-93 | the table is emptied and each entry counted |
| RoutingTable.RefinesPlainMap | src/router/table.rs:28-93 | in every run the table is bounded and each hit is the latest value inserted or refreshed and not invalidated since |
| RoutingTable.InvalidatedUntilReinserted | src/router/table.rs:67-84 | after an invalidation no lookup returns a route to or through the peer until one is put in again |
| RoutingTable.AvoidingKeepsOrder | src/router/table.rs:67-84 | unrelated routes keep value and recency order |
| RoutingTable.ExactWithoutEviction | src/router/table.rs:28-93 | while no more destinations than the capacity are used, hits and misses are exactly those of the plain map |
| RoutingTable.RecentRouteIsRetained | src/router/table.rs:28-56 | a route just found or inserted is found again after any operations that use fewer other destinations than the capacity and invalidate nothing |
| RoutingTable.RouteIsRetainedIff | src/router/table.rs:28-56 | after any operations that invalidate nothing, a route found or inserted is still held if and only if fewer other destinations than the capacity were used since it last was |
| RateLimiter.RateLimiter.CheckAndRecord | src/security/rate_limit.rs:48-73 | the message is allowed exactly while the peer's current bucket has room; every refusal counts on both violation counters |
| RateLimiter.AllowedIff | src/security/rate_limit.rs:48-73 | in every run, with any clock, a message is allowed if and only if fewer than capacity messages of its peer were allowed in its window; a window starts with the first message after the previous one's length is over |
| RateLimiter.AllowedIsBounded | src/security/rate_limit.rs:48-73 | with a non-decreasing clock, at most capacity per bucket window and at most 2·capacity − 1 in any half-open interval of the window length |
| RateLimiter.PeersAreIndependent | src/security/rate_limit.rs:48-73 | a peer's decisions depend on its own messages alone |
| RateLimiter.BurstIsReached | src/security/rate_limit.rs:48-73 | the bound 2·capacity − 1 is reached for every capacity and window of two ticks or more |
| RateLimiter.SlidingPromiseIff | src/security/rate_limit.rs:22-73 | the documented sliding-window promise holds if and only if the capacity is at most 1 or the window at most one tick |
| StrikeTracker.Retain | src/gossip/strike_tracker.rs:37-38 | keeping the recent failures is a filter by the closed window |
| StrikeTracker.StrikeTracker.RecordFailure | src/gossip/strike_tracker.rs:30-44 | older failures are pruned, this one added, and the answer is whether more than 3 remain |
| StrikeTracker.StrikeTracker.ClearPeer | src/gossip/strike_tracker.rs:47-49 | exactly the peer's failures are forgotten |
| StrikeTracker.StrikeTracker.GetStrikeCount | src/gossip/strike_tracker.rs:52-63 | the number of recent failures |
| StrikeTracker.StrikeTracker.Cleanup | src/gossip/strike_tracker.rs:66-72 | every list is pruned and empty ones removed |
| StrikeTracker.PrunedAgrees | src/gossip/strike_tracker.rs:30-72 | with a non-decreasing clock the pruned list and the full history show the same failures at every later time |
| StrikeTracker.BanIffHistoryExceeds | src/gossip/strike_tracker.rs:30-44 | a failure bans if and only if more than 3 since the last clear lie in the closed ten-minute window |
| StrikeTracker.FailureStoresRecent | src/gossip/strike_tracker.rs:30-44 | a failure leaves its peer exactly as many times as lie within the last 600 000 ms, all from there, followed by its own; other peers keep theirs |
| StrikeTracker.CleanupStoresRecent | src/gossip/strike_tracker.rs:66-72 | a cleanup leaves exactly the peers with a failure within the last 600 000 ms, and of each only those |
| StrikeTracker.FourthFailureBans | src/gossip/strike_tracker.rs:30-63 | with n failures since the last clear at most 600 000 ms ago the count is n, and one more failure bans if and only if n is at least 3 |
| StrikeTracker.CleanupIsInvisible | src/gossip/strike_tracker.rs:66-72 | cleanups anywhere in the run change no later answer |

## Left out

- Serialisation, signatures and hashes: MessagePack, Ed25519 and SHA-256 are not modelled; messages on the wire are
  their serialised bytes, and a delivered envelope may always be rejected.
- `src/security/encryption.rs`, `src/discovery`, `src/persistence`, `src/ffi.rs`, the daemon and the HTTP client: I/O
  and wrappers around other libraries; the RPC client appears only as arbitrary answers.
- Concurrency inside one operation: tasks, locks, listeners, per-send timeouts and reads cut off half-way; each
  operation runs to completion.
- The WiFi reconnect loop with its doubling delay.
- `process_transaction_envelope`, peer bans, reputation penalties, hop counter, topology events, metrics summaries and
  scheduler intervals: simple rules without cross-step properties.
- Floating point: retry backoff and jitter, the fanout from an estimated mesh size, false-positive rates.
- The Bloom filter inside the relay deduplicator: it is only ever written, never consulted.
- The relay's signature itself: a proof is represented by the triple that is signed.
- The general-purpose `MessageFilter` and `BloomFilter` wrappers and the BLE duty cycle for advertising.
- Duration arithmetic below a millisecond, and the wrap-around of `next_awake_barrier` beyond 2^64 ms.
- PathFinder.RelayDistance: distances are unbounded numbers, so the overflow of `usize` is not modelled.
