# Shogunet: models and proofs

Shogunet is a fleet networking layer: a byte-level envelope protocol, a durable outbox, a fallback chain
of transports with circuit breakers, a gossiped memory mesh, airtime-limited radio links, a hash-chained
audit log and an octree of shared observations. This project models those algorithms in Dafny and proves
what they keep and achieve over all inputs and all runs. `dafny verify dfyconfig.toml` checks everything.

Objects that the code updates in place are classes here. Their methods are proved to compute a value-level
step function, and the main results are lemmas about that function: over any input, any run, any
interleaving. Clocks, disk writes, links and handlers are parameters: a clock is a function from the number
of the reading to its value, a link answers each call as an oracle says. Floats and clocks are exact reals,
except in the codec, where a float is its 64-bit pattern.

| modules | what they model |
|---|---|
| `Bytes`, `Frames`, `Reassembly`, `Assembler`, `Interleaving`, `AssemblerRuns` | header, segmentation, reassembly, bounded assembler (`protocol.py`) |
| `Utf8`, `Payloads`, `PythonModel`, `Codec`, `CodecRoundTrip`, `CompactFrames`, `Normalization` | the compact codec, byte for byte, and the caps on envelopes (`protocol.py`) |
| `Outbox`, `OutboxRace`, `Dedup` | write-ahead log, its races, duplicate window (`store_forward.py`) |
| `Breaker`, `ChainWalk`, `ChainSafety`, `ChainCounts`, `MailEncoding`, `Transports` | circuit breakers, the ranked walk, the transport chain (`transport_fallback.py`) |
| `Memory`, `Mesh`, `Confluence`, `AntiEntropy` | fact store, sync node, the mesh over a lossy network (`memory_sync.py`) |
| `DutyCycle` | the rolling-hour airtime budget (`link_simulator.py`) |
| `SerialPipe`, `Deframing`, `ReadBoundaries`, `LoraTrips`, `LoraAirtime`, `LoraDelivery` | byte pipe, deframer, fixed-window budget, end-to-end delivery (`lora_transport.py`) |
| `Audit` | the hash chain (`audit.py`) |
| `Octree`, `OctreeSearch`, `OctreeHeap`, `IndexModel`, `IndexCopies`, `IndexGrid`, `IndexTight`, `SpatialIndexes`, `Fusion` | octree, spatial index, fusion (`spatial.py`) |
| `Common`, `Sorting` | shared building blocks; a stable sort for Python's `sorted` |

## What turned out not to hold as documented

Each of these is a lemma: either the exact condition under which the promise holds, or an input on which it
fails.

- The compact codec is called lossless. It is exactly when the payload is a dict, no registered integer lies
  outside 0..2^64-1, no dict sits under `_blob`, and the topic encodes to at most 255 bytes; a topic of 64
  four-byte characters loses its last one (`CompactRoundTrip`, `TopicSurvivesExactly`).
- Deframing does not depend on how the stream is cut into reads exactly when no impossible length occurs, or
  one occurs only in the last four bytes (`IndependentExactly`).
- A LoRa frame whose drain was interrupted anywhere and which is retried later than the assembler's time to live
  is lost, although every chunk of the retry arrives (`RetryDeliversExactly`). A queued frame that cannot be
  split blocks everything behind it for good (`HeadBlocksForGood`). Every drain starts again at the first
  chunk, so within one window a frame is sent exactly when the budget still covers all of its chunks
  (`DrainOutbox`): one that needs more than a whole window's budget is never sent that way.
- The rolling-hour bound is proved for transmissions that do not overlap, which `submit` does not enforce. For
  any overlap between the tolerance of 1e-9 s and 899 s there are three frames that `submit` records with that
  overlap and that exceed the budget of some window (`OverlappingExceeds`).
- An outbox entry that is marked done can come back on disk for good (`EarlyDoneResurrects`), exactly when its
  line is still on its way to the file that the path names; a line bound for a file that a compaction has
  replaced does no harm (`ComesBackExactly`).
- An at-least-once send ignores the outbox's answer: the message is persisted exactly when the outbox was not
  full or knew its id, and is sent unpersisted otherwise (`PersistedExactly`, `Send`).
- Anti-entropy stalls for good once the requester holds more than 64 facts, because its digest list can no
  longer be encoded (`ConvergesExactly`).
- A reinforcement, meant to raise a salience, lowers it exactly when it was above the cap of 10
  (`ReinforcementMoves`). Tombstones are remembered but never consulted: a key is held exactly when the last update about it was a fact
  (`HeldExactly`). Updates of one fact win by arrival order (`ArrivalOrderWins`).
- `send_raw` looks at no addressing mode: a transport it reaches is left alone exactly when its breaker is open,
  and a refused broadcast counts against an addressed-only one (`RawCountsExactly`, with the instance
  `RawBroadcastCounts`). Its exceptions never open a breaker (`RaisingNeverOpens`).
- In `send`, an encoding or splitting failure for one transport ends the walk although a later one could carry
  the mail; `SendsExactly` gives the exact condition. An envelope whose payload is a number four lists deep is
  one that only JSON can carry (`OnlyJsonCarries`, `EncodingFailureStops`).
- A transport that was never measured ranks last; its first refusal gives it a latency of one second and moves
  it forward (`RefusalDemotes`).
- `InboxDedup` is documented as an LRU; hits do not refresh a key, so it is a first-in-first-out window
  (`IsDuplicate`).
- After a failed audit write the next successful one breaks the chain for good (`VerifiesUnlessSkipped`).
- A pruning that removes nothing can multiply the stored copies of a point on a centre plane
  (`PruneMultiplies`). An observation is stored at most once through every run exactly when its coordinates
  avoid the planes that divisions down to the depth limit can cut along (`NeverTwiceExactly`).

## Model

| member | source | states |
|---|---|---|
| `Bytes.UnpackPack` | protocol.py:63 | a number packed into its big-endian field reads back as itself |
| `Bytes.PackUnpack` | protocol.py:63 | a field read and packed again gives the same bytes |
| `Bytes.FirstByteHighest` | protocol.py:63 | the most significant byte of a field comes first |
| `Frames.PeekPack` | protocol.py:407-428 | every valid header, packed in front of a body of the announced length, passes all the header checks and reads back field for field |
| `Frames.PackPeek` | protocol.py:407-428 | whatever passes the header checks is its own header, repacked, followed by its payload: the checks leave no byte of the header free |
| `Frames.HeaderLayout` | protocol.py:62-63 | every frame that passes the checks starts with "SGN" and version 1 and has each field at its place, the id and the length with the high byte first |
| `Frames.SegmentFrame` | protocol.py:448-476 | the splitting loop returns the specified segments, or the error of the check that fails first |
| `Frames.SegmentsAreFull` | protocol.py:448-476 | every segment of a split frame but the last is exactly as long as the chunk size allows, and the last one carries payload |
| `Reassembly.Defragment` | protocol.py:479-522 | the loops over chunks, heads and pieces compute the reassembly function, errors and their order included |
| `Reassembly.SegmentsCut` | protocol.py:448-476 | splitting a frame whose segmented flag is clear cuts its payload into at most 255 pieces that cover it |
| `Reassembly.SegmentsAreFrames` | protocol.py:448-476 | every chunk handed out is a valid frame, no longer than the chunk size, of the same type and id as the original |
| `Reassembly.RoundTrip` | protocol.py:479-522 | any list drawn from a frame's segments, in any order with any duplicates, gives the original frame byte for byte if and only if no segment is missing, otherwise None; never an error |
| `Reassembly.SplitReassemble` | protocol.py:448-522 | the same for the two wire functions together, whether or not the frame had to be split |
| `Assembler.AddedBounded` | protocol.py:541-569 | after any call `_order` is duplicate-free, holds the same keys as `_pending`, and at most `max_pending` of them |
| `Assembler.PruneMeans` | protocol.py:564-568 | pruning removes exactly the stale keys and leaves every other slot as it was |
| `Assembler.SegmentAssembler.Add` | protocol.py:541-569 | one call on the object is one step of the specified state machine, for the state and the result |
| `AssemblerRuns.AddKeeps` | protocol.py:541-569 | after a call that brings a segment, exactly these slots are gone: the one opened longest ago if a new key came and all places were taken, that of the frame if it is complete, and otherwise the stale ones; every other slot is unchanged and in its old order; the answer is what the pieces of the slot give |
| `AssemblerRuns.OldestFirst` | protocol.py:549-553 | over any run, `_order` lists the keys in the order in which their slots were opened |
| `AssemblerRuns.SlotHolds` | protocol.py:548-556 | over any run with any number of frames, a slot holds exactly the segments of its frame that came since the call that opened it, in order, and is dated by that call |
| `AssemblerRuns.AnswersExactly` | protocol.py:541-562 | over any run, a segment is answered with what reassembling the segments since the opening call gives |
| `AssemblerRuns.ForgottenExactly` | protocol.py:549-568 | over any run: a call makes a waiting frame disappear if and only if it completes it, or times it out, or opens one more slot when `max_pending` are waiting, all the others opened after this one |
| `AssemblerRuns.UncrowdedComesOut` | protocol.py:541-569 | however many frames went through before or are under way: the call that brings the last missing segment answers with the original frame, if fewer than `max_pending` other frames are seen since its first segment and none of its segments is late |
| `Interleaving.MixedFramesComeOut` | protocol.py:541-569 | segments of up to `max_pending` frames mixed arbitrarily, each once and within the time to live: every call returns the original frame when it supplies the last missing segment and nothing otherwise, and none raises |
| `Interleaving.EmittedExactlyOnce` | protocol.py:541-569 | a frame all of whose segments arrive is emitted, unchanged, at exactly one arrival |
| `Utf8.DecodeEncode` | protocol.py:254 | encoding a text as UTF-8 and decoding it with replacement gives it back |
| `Utf8.TruncatedTail` | protocol.py:254 | an encoding cut one byte short of a final four-byte character decodes to the text with U+FFFD in its place |
| `Payloads.BoundFixed` | protocol.py:199-220 | bounding a payload is idempotent, also at any shallower depth |
| `PythonModel.PythonExists` | protocol.py:199-241 | the assumptions about printable characters and JSON text can be met: an encoding from which every value reads back exists |
| `Codec.EncodeCompactBody` | protocol.py:245-273 | the two growing byte arrays end up as the specified body, or the error of the entry that fails first |
| `Codec.DecodeEntryLoop` | protocol.py:363-372 | the entry loop over the offset computes the specified dict |
| `CodecRoundTrip.EntryRoundTrip` | protocol.py:226-341 | one tag-length-value entry decodes to the value it carries, from any position in any bytes, and the reader ends right behind it |
| `CodecRoundTrip.EntriesRoundTrip` | protocol.py:258-272 | all entries of a bounded payload, registered keys and the JSON fallback mixed, read back as one dict |
| `CodecRoundTrip.TransparentExactly` | protocol.py:258-272 | as maps, the dict read back equals the one written if and only if every registered integer is in 0..2^64-1 and no dict sits under `_blob` |
| `CompactFrames.TopicSurvivesExactly` | protocol.py:252-256 | a sanitized topic comes back if and only if its encoding fits 255 bytes |
| `CompactFrames.CompactRoundTrip` | protocol.py:292-439 | for every envelope the compact codec accepts: decoding the frame gives the normalized envelope, its payload compared as a map, if and only if that envelope is `Transportable`: its payload is a dict, no registered integer is outside 0..2^64-1, no dict sits under `_blob`, and its topic encodes to at most 255 bytes |
| `Normalization.SanitizeMeans` | security.py:20-29 | a text is cut at the cap and has spaces for what cannot be printed, and is otherwise left alone |
| `Normalization.RefusedExactly` | protocol.py:199-212 | a payload is refused if and only if somewhere a container is nested more than four deep or has more than 64 members |
| `Normalization.UnchangedExactly` | protocol.py:199-220 | a payload is left as it is if and only if its texts and keys are short and printable, its floats finite, its containers small and shallow and its keys all different |
| `Normalization.BoundMeans` | protocol.py:199-220 | what any other payload becomes, level by level: members keep their places, the last of keys that become equal wins, a float that is no number becomes zero |
| `Normalization.NormalExactly` | protocol.py:185-196 | an envelope is normalized to itself if and only if every field is within its cap and printable, recipient and realm are not empty and the id fits 32 bits; it is refused if and only if its payload is |
| `Normalization.EncodesExactly` | protocol.py:292-316 | the compact codec takes an envelope within the caps with a dict for a payload if and only if its type is known, it names a sender and it fits 65535 bytes |
| `Normalization.NormalRoundTrip` | protocol.py:292-439 | an envelope within the caps comes back exactly as it was, its payload compared as a map, if and only if it is transportable |
| `Outbox.ReplayCompacted` | store_forward.py:116-142 | replaying a compacted log gives back the very same dict, in the same order |
| `Outbox.ReplayIsPending` | store_forward.py:37-142 | over any sequence of calls whose appends succeed, from the start or from any successful compaction on, the log replays to exactly the pending dict, order included |
| `Outbox.InPlace` | store_forward.py:81-106 | storing a known id replaces its entry where it stands, and removing one moves nothing else |
| `Outbox.NeverOverfull` | store_forward.py:81-98 | no run of calls makes the dict hold more than `max_pending` entries, unless it held more to begin with |
| `Outbox.OutboxStore.constructor` | store_forward.py:27-57 | opening a store on any file of records and unreadable lines makes its dict what that file replays to |
| `Outbox.OutboxStore.Enqueue` | store_forward.py:81-98 | refused, with nothing changed, exactly when full of other ids; otherwise the dict holds the entry and all others of different ids, and the log gains it if the disk allows |
| `Outbox.OutboxStore.MarkDone` | store_forward.py:100-106 | true exactly for a pending id, which leaves the dict and, if the disk allows, is marked in the log |
| `Outbox.OutboxStore.Compact` | store_forward.py:116-142 | the log becomes the entries of the dict if the rewrite succeeds and stays as it is if not; the count returned is that of the dict |
| `OutboxRace.NothingLost` | store_forward.py:72-142 | in every interleaving of locked updates, opens, writes and compactions: an entry whose enqueue has returned and that is not done is in the dict and in what a restart replays |
| `OutboxRace.QuietFileIsPending` | store_forward.py:72-142 | if no `mark_done` came while its entry's line was still on its way to the live file: whenever no write is under way, the file replays to exactly the entries of the dict, as a set |
| `OutboxRace.ReturnedIsPolite` | store_forward.py:81-106 | marking an entry done after its enqueue returned never comes while its line is on its way |
| `OutboxRace.EarlyDoneResurrects` | store_forward.py:91-105 | a run in which an entry marked done before its enqueue returned stays on disk while the dict is empty |
| `OutboxRace.ComesBackExactly` | store_forward.py:81-142 | from every reachable state with the lock free: marking a pending entry done can be followed by possible steps after which it is on disk, done, and no line that would remove it is on its way, if and only if the line that stores it is still on its way to the file that the path names, opened or not |
| `Dedup.InboxDedup.IsDuplicate` | store_forward.py:159-169 | true if and only if the key is among the last `capacity` accepted keys; a hit changes nothing |
| `Dedup.AcceptedSpread` | store_forward.py:145-169 | for any stream, two acceptances of one key are more than `capacity` acceptances apart |
| `Dedup.OthersInBetween` | store_forward.py:145-169 | between them lie `capacity` pairwise different other keys |
| `Breaker.NotedReflects` | transport_fallback.py:157-172 | updating the two breaker fields keeps them equal to what the whole list of attempts says |
| `Breaker.RateBound` | transport_fallback.py:157-172 | a transport that keeps refusing is tried at most `threshold + floor(d / cooldown)` times within d seconds of its first failure |
| `Breaker.RefusalsBounded` | transport_fallback.py:157-217 | between two successes, with any number of raised attempts mixed in, the refusals within d seconds of the first failure obey the same bound |
| `Breaker.RaisingNeverOpens` | transport_fallback.py:213-217 | any number of attempts that raise is possible at one instant, with the breaker closed throughout |
| `ChainSafety.RankedInOrder` | transport_fallback.py:97-109 | the walk's queue is exactly the transports that take the class, each as often, closed breakers before open ones and then by latency, and those of equal rank in their original order |
| `ChainSafety.RawRankedInOrder` | transport_fallback.py:183-188 | the queue of `send_raw` is all transports, in the order of its own key, those of equal rank in their original order |
| `ChainSafety.RefusalDemotes` | transport_fallback.py:101-109 | while its breaker stays closed, a refusal moves a transport back in the ranking if and only if its latency was known, and forward if and only if it was not |
| `ChainSafety.SuccessAverages` | transport_fallback.py:158-162 | a success moves the latency a fifth of the way to the new sample, and never beyond it |
| `ChainSafety.WalkSound` | transport_fallback.py:121-175 | a call of `send` keeps every breaker equal to its attempt history, with no attempt made while it was open |
| `ChainSafety.RawWalkSound` | transport_fallback.py:189-220 | so does a call of `send_raw` |
| `ChainSafety.BroadcastSpares` | transport_fallback.py:126-131 | a broadcast changes neither the breaker nor the history of an addressed-only transport |
| `ChainSafety.RawCountsExactly` | transport_fallback.py:189-220 | whoever the recipient: a transport that no earlier acceptance shields is untouched by `send_raw` if and only if its breaker is open; its failures rise if and only if it is closed and does not accept; it ends open if and only if it was, or it refuses and the failures reach the threshold |
| `ChainSafety.RawBroadcastCounts` | transport_fallback.py:189-212 | an instance of `RawCountsExactly`: one refused broadcast opens the breaker of the only, addressed-only transport |
| `ChainSafety.WalkOutcome` | transport_fallback.py:121-175 | the mail goes out at most once: on success the transport named took all pieces of the frame its own codec made, everyone asked before it refused, nobody is asked after; otherwise there were refusals only |
| `ChainSafety.OneIsEnough` | transport_fallback.py:121-175 | however the transports ranked before it answer short of raising, one closed transport that can carry the mail and accepts it gets it out, if every earlier one is skipped for its breaker or its addressing mode or can be encoded for |
| `ChainSafety.SendsExactly` | transport_fallback.py:121-175 | past transports that refuse, a closed one that can carry the mail and accepts it gets it out if and only if every earlier one is skipped for its open breaker or its addressing mode, or can be encoded for and split where needed |
| `ChainCounts.SendOrder` | transport_fallback.py:101-106 | the key by which `send` ranks: closed breakers first, then the smaller latency, one never measured counting as 10^12 |
| `ChainCounts.RawOrder` | transport_fallback.py:183-188 | the key of `send_raw`: the same, but one never measured, or measured as zero, comes behind all others of its kind |
| `ChainCounts.TurnRates` | transport_fallback.py:121-175 | a skipped turn changes nothing; a refusal makes the latency half a second worse and is announced exactly when it opens the breaker; a success draws the latency a fifth of the way to the time measured; an exception leaves everything |
| `ChainCounts.WalkAccounts` | transport_fallback.py:121-175 | every call of `send` is counted once as sent, failed or neither, and every transport whose turn came is reported as skipped or attempted, nobody else |
| `ChainCounts.RawWalkAccounts` | transport_fallback.py:189-220 | a call of `send_raw` reports all before the acceptor as skipped, counts one attempt for every call of a transport and one opening for every one announced, and leaves all latencies alone |
| `ChainCounts.CarriedFits` | transport_fallback.py:132-150 | what a transport took was encoded compactly if it holds at most 1024 bytes and as JSON otherwise, and no piece was larger than it holds |
| `MailEncoding.OnlyJsonCarries` | protocol.py:199-316 | an envelope whose payload is a number four lists deep: the compact codec wraps it one level too deep and fails, the JSON codec succeeds |
| `MailEncoding.EncodingFailureStops` | transport_fallback.py:132-138 | such an envelope ends the walk at the first constrained transport whose turn comes, unsent, although a later one could carry it |
| `Transports.TransportChain.HandOver` | transport_fallback.py:145-150 | pieces are handed over in order up to the first one not accepted |
| `Transports.TransportChain.Judge` | transport_fallback.py:121-144 | whether a transport's turn is skipped, ends the walk, raises, or is taken, and with which pieces |
| `Transports.TransportChain.Send` | transport_fallback.py:111-175 | the whole new state and report are those of the walk over the ranked queue; in the at-least-once mode the outbox is offered the entry first, and afterwards holds it if and only if it had room or knew the id, whatever the walk does |
| `Transports.PersistedExactly` | transport_fallback.py:116-120 | an enqueue leaves the entry, or any entry of its id, in the outbox if and only if the outbox was not full or knew the id |
| `Transports.TransportChain.SendRaw` | transport_fallback.py:177-220 | the whole new state and report are those of the raw walk at one reading of the clock |
| `Transports.SameKey` | transport_fallback.py:258-261 | two deliveries share a dedup key if and only if they are from the same agent (the envelope's sender, or the peer where it names none) and their ids agree in 32 bits: whoever forwards them, different agents never shadow each other |
| `Transports.TransportChain.OnFrame` | transport_fallback.py:245-289 | an envelope that is complete and decodes is a duplicate if and only if one of the last `capacity` envelopes taken is the same mail; the handlers run exactly for one that is new, kept by no router and addressed to this agent or to everyone; what an acknowledgement does to the outbox, and every counter |
| `Transports.HandlersAtMostOnce` | transport_fallback.py:258-289 | in every reachable state, between two runs of the handlers for one sender and message id, whatever peers delivered them, `capacity` envelopes were taken, all different from that one and from one another |
| `Transports.PersistedUntilAcked` | transport_fallback.py:116-120 | in every reachable state, an entry that an at-least-once send offered and the outbox accepted is still pending unless an accepted acknowledgement named it, and a restart reads back exactly the pending entries when appends succeeded |
| `Transports.AttemptsAreBounded` | transport_fallback.py:121-220 | the rate bound holds of every reachable state of the chain, `send` and `send_raw` mixed: the refusals between two successes, whatever raised in between |
| `Transports.ClosedWhenTried` | transport_fallback.py:121-212 | in every reachable state, no attempt was made before the time its breaker was open until |
| `Memory.InMemoryFactStore.StoreFact` | memory_sync.py:171-222 | which key a fact goes under, which id it gets, and that nothing else changes |
| `Memory.InMemoryFactStore.ReinforceFact` | memory_sync.py:235-246 | salience and access count of that fact only; None for an unknown key |
| `Memory.MemorySyncNode.OnEnvelope` | memory_sync.py:372-498 | an inbound envelope changes the store as the merge function says; mail for others and from private peers changes nothing |
| `Mesh.Provenance` | memory_sync.py:394-467 | over every run with drops, duplicates and reordering: content held under another agent's key was published by that agent for that id, as its own fact |
| `Mesh.OwnFactsUntouched` | memory_sync.py:394-498 | no inbound fact or tombstone changes an agent's own fact, and a reinforcement changes salience and access count only |
| `Mesh.ReinforcementMoves` | memory_sync.py:235-246 | an own fact's salience is lowered if and only if it was above the cap and the envelope is an unmuted reinforcement of it, and then to the cap; raised if and only if it was below the cap and the clamped amount is positive |
| `Mesh.ReinforcementAdds` | memory_sync.py:235-246 | a reinforcement adds its amount, between 0 and 2 and 0.25 if it names none, up to the cap, and counts one access |
| `Confluence.ReplicasAgree` | memory_sync.py:404-498 | two third-party replicas that process the same per-origin sequences, interleaved differently, agree on every fact: content, kind, metadata, salience, access count |
| `Confluence.ArrivalOrderWins` | memory_sync.py:448-463 | two texts for one id delivered in opposite orders leave replicas with different contents |
| `Confluence.HeldExactly` | memory_sync.py:394-498 | through any run of facts and tombstones, a third party's key is held if and only if the last update about it was a fact, or there was none and it was held before |
| `Confluence.TextReplaced` | memory_sync.py:448-463 | an unmuted fact with another text for a held third-party key: the text and kind become the incoming ones, the salience becomes the larger of the two, the metadata the incoming one unless it is empty or too large |
| `Confluence.TextConfirmed` | memory_sync.py:464-467 | one with the same text raises the salience by 0.05 up to the cap, to which one above it falls, counts an access and changes nothing else; the salience it brings is ignored |
| `Confluence.TextIntroduced` | memory_sync.py:432-447 | one for a key not held is stored as it came, within the caps |
| `Confluence.OthersUntouched` | memory_sync.py:394-498 | an inbound envelope touches at most the key it names, and a muted one none |
| `Confluence.LastTextHeld` | memory_sync.py:404-498 | through any run of facts and tombstones, the text held under a third party's key is that of the last fact about it |
| `Confluence.SalienceKept` | memory_sync.py:404-467 | through any run, a fact that no tombstone names keeps its salience, or the cap where it was above |
| `Confluence.SalienceHeard` | memory_sync.py:404-467 | a salience that arrives with a text not held survives every run without a tombstone, up to the cap |
| `AntiEntropy.Responder.OnDigest` | memory_sync.py:617-644 | the facts chosen are the top 32 of a salience order of its own facts that the digests do not cover; exactly those with content are sent, in that order |
| `AntiEntropy.OnDigestChooses` | memory_sync.py:617-643 | against the requester's digests, that is a choice of min(32, m) of the m facts it lacks, none less salient than one left out |
| `AntiEntropy.RoundProgress` | memory_sync.py:608-644 | one exchange with a requester of at most 64 facts delivers exactly min(32, m) of the m missing facts, none less salient than one still missing, and loses nothing |
| `AntiEntropy.ConvergesExactly` | memory_sync.py:608-644 | after enough rounds nothing is missing if and only if the requester's store is still at most 64 facts when the last needed round begins |
| `DutyCycle.RollingHour` | link_simulator.py:123-155 | for transmissions that follow one another, the airtime in every one-hour window is at most `duty_cycle*3600 + 1e-9` |
| `DutyCycle.AllowsExactly` | link_simulator.py:123-136 | a transmission of at most an hour is let through if and only if the hour that ends with it, itself included, is within the budget |
| `DutyCycle.RecordedWithinBudget` | link_simulator.py:123-155 | whatever is submitted: if what was recorded does not overlap, its airtime in every one-hour window is within the budget |
| `DutyCycle.RemainsAllows` | link_simulator.py:152-155 | discarding old entries never changes a later decision |
| `DutyCycle.OverlappingExceeds` | link_simulator.py:117-155 | for every overlap between 1e-9 s and 899 s there are a medium with a duty cycle of at most 1 and three frames that `submit` records on it, two of them overlapping by that much, that exceed the budget of a window nobody checked |
| `DutyCycle.SimulatedEther.SubmitAirtime` | link_simulator.py:138-155 | accepted exactly when the whole history, not only what is still stored, allows it; the history gains exactly that transmission, as the record of submissions does |
| `SerialPipe.Pipe.Read` | lora_transport.py:69-89 | the next n bytes in order, or all there are; the rest keeps its order |
| `SerialPipe.Pipe.Write` | lora_transport.py:60-67 | an open pipe gains the bytes at its end; a closed one raises |
| `Deframing.Receiver.PumpReceiver` | lora_transport.py:212-238 | one pump hands on and keeps what the parse function says, also when a handler raises midway |
| `Deframing.BoundariesDoNotMatter` | lora_transport.py:212-238 | without impossible lengths, however the stream is cut and wherever handlers raise, the frames handed on and the buffer together are the stream's frames in order and its remainder |
| `Deframing.ParseWire` | lora_transport.py:212-238 | the bytes written for a list of frames parse to exactly that list with nothing left over |
| `ReadBoundaries.IndependentExactly` | lora_transport.py:212-238 | every way to cut a stream into reads of 1 to 256 bytes makes the pumps hand on the same frames and keep the same bytes if and only if the parse meets no impossible length, or one only in the last four bytes |
| `LoraAirtime.LoraTransport.SendFrame` | lora_transport.py:162-178 | queued exactly when it has a header, is of a control or memory class, and there is room |
| `LoraAirtime.LoraTransport.DrainOutbox` | lora_transport.py:269-299 | what was written, how far it got and why it stopped; the queue moves exactly when all chunks of its head were written, and the log of trips gains that frame with its interrupted drains; within one window, on a port that takes everything, the frame is sent if and only if the airtime used and that of all its chunks are within the budget |
| `LoraTrips.UnsplittableExactly` | lora_transport.py:269-280 | a head frame cannot be split if and only if its header is bad or it needs more than 255 segments |
| `LoraTrips.HeadBlocksForGood` | lora_transport.py:162-299 | once such a frame is at the head, every queue that any calls lead to begins with the whole present queue |
| `LoraAirtime.LoraTransport.AnyStretch` | lora_transport.py:183-196 | in every reachable state, any stretch of `duty_window` seconds carries at most twice the budget of one window |
| `LoraAirtime.TwoSpansAtMost` | lora_transport.py:183-196 | an interval as long as a window meets at most two spans between resets, each within the budget |
| `LoraDelivery.OneFrame` | lora_transport.py:240-243 | one frame's chunks, with any interrupted attempts before, come out of the assembler as that frame, once, leaving it as it was |
| `LoraDelivery.EndToEnd` | lora_transport.py:162-299 | for a transport in any reachable state: of the frames it accepted, exactly those that left its queue come out at the other end, whole, once each and in order, the rest being its queue, however budget and port interrupted the drains and the stream was cut into reads, if each frame's chunks are handled within the time to live |
| `LoraDelivery.RetryDeliversExactly` | lora_transport.py:269-299 | for every split frame, a drain interrupted after any of its chunks and retried after a gap delivers the frame if and only if the gap is within the time to live |
| `Audit.IdealHashIsGood` | audit.py:74-80 | the assumption on the hash can be met: an injective one that never yields the genesis value exists |
| `Audit.VerifiesExactly` | audit.py:116-154 | `verify` reports nothing if and only if every line parses and the records form a sound chain with distinct numbers |
| `Audit.TailCommits` | audit.py:74-154 | with an injective hash, two files that verify and end in the same hash hold the same records |
| `Audit.LogIsHistory` | audit.py:88-114 | after any run of appends and reloads, broken chain or not, the log holds the times, events and payloads of exactly the appends whose write succeeded, in order |
| `Audit.TailCommitsToHistory` | audit.py:88-114 | two runs in step with their files that end with the same hash logged the same times, events and payloads in the same order |
| `Audit.VerifiesUnlessSkipped` | audit.py:52-114 | after any run of appends and reloads the file verifies if and only if no record was written on top of one that had failed to reach it, and is then numbered 1..n |
| `Audit.AuditChain.constructor` | audit.py:52-72 | opening a log reads the counters off any file, corrupt lines included |
| `Audit.AuditChain.AppendEvent` | audit.py:88-114 | the record, the counters and, if the disk allows, the file after one append |
| `Audit.AuditChain.Verify` | audit.py:116-154 | the loop reports exactly the specified problems, line by line |
| `Audit.ReportsExactly` | audit.py:116-154 | `verify` reports each flaw of each line once, under the line's number, in line order, and nothing else: a corrupt line, a record that does not link to the last one followed, a wrong digest, a number followed before |
| `Audit.LoadedExactly` | audit.py:52-70 | opening any file: the number is the highest one a record has, or 0, and the tail the last well-formed hash, or the genesis value |
| `Octree.PartsCover` | spatial.py:148-162 | the eight closed children cover their parent; a point lies in exactly one of them if and only if it is on no centre plane |
| `Octree.InsertedWellFormed` | spatial.py:164-176 | insertion keeps every observation inside the cube of its node and every divided node divided into its eight parts |
| `Octree.DividesExactly` | spatial.py:168-174 | a leaf that an observation reaches is divided if and only if it is above the depth limit and already holds as many entities as a leaf may |
| `OctreeSearch.InsertedCounts` | spatial.py:164-176 | an insertion adds its copies of the observation and nothing else |
| `OctreeSearch.StoredInside` | spatial.py:164-176 | an observation is stored at all if and only if it lies in the cube |
| `OctreeSearch.StoredOnce` | spatial.py:164-176 | it is stored exactly once if and only if it lies on no centre plane of the divided nodes around it |
| `OctreeSearch.NotPruned` | spatial.py:191-201 | a cube that holds a point of the sphere is never pruned |
| `OctreeSearch.HitsAreScan` | spatial.py:178-201 | a pruned search finds every stored copy of what lies in the sphere and nothing else |
| `OctreeHeap.OctreeNode.Insert` | spatial.py:164-176 | in-place insertion over the node objects computes the specified tree and keeps the nodes disjoint |
| `OctreeHeap.OctreeNode.QuerySphere` | spatial.py:178-201 | the recursion over the node objects appends exactly the hits of the tree, in its order |
| `OctreeHeap.OctreeNode.CollectAll` | spatial.py:203-208 | the recursion over the node objects appends everything stored, in its order |
| `IndexModel.Round6Nearest` | spatial.py:233-239 | key coordinates are the nearest millionths, halves to even, in the order of the values |
| `IndexModel.DuplicatesExactly` | spatial.py:233-239 | two observations are duplicates if and only if entity, agent, frame and label are the same and place, confidence and time round to the same millionths |
| `IndexModel.RunAgrees` | spatial.py:241-250 | after any run of insertions and prunings the index stores, as a set, what a linear scan with the same duplicate rule stores, and has seen the same keys |
| `IndexModel.RunBucketed` | spatial.py:164-174 | in every reachable index each node has one non-empty bucket per entity, holding that entity's observations |
| `IndexModel.SearchIsScan` | spatial.py:268-274 | after any such run, a sphere query answers as a set exactly the stored observations inside the sphere |
| `IndexModel.BoxIsScan` | spatial.py:276-281 | a box query finds every stored copy of what lies in the box and nothing else |
| `IndexModel.PruneAgrees` | spatial.py:342-378 | a pruning stores exactly the observations at or after the cutoff, has seen exactly their keys, and keeps keys distinct |
| `IndexModel.PruneIsRebuild` | spatial.py:373-378 | after a pruning the index equals, for every query, one into which only the survivors were inserted, in any order |
| `IndexCopies.InsertsStoreOnce` | spatial.py:241-250 | after insertions alone, a stored observation on no centre plane of a divided node around it is stored exactly once |
| `IndexCopies.PruneKeepsCopies` | spatial.py:373-378 | a pruning keeps the number of copies of what lies on no centre plane of the rebuilt tree; `StoredOnceAlways` gives a condition on coordinates |
| `IndexCopies.PruneMultiplies` | spatial.py:342-378 | for every leaf capacity and as many entities stored at the root, a pruning that removes nothing at least doubles the copies of a point on a centre plane of the world |
| `IndexGrid.StoredOnceAlways` | spatial.py:241-250 | through any run of insertions and prunings, a stored observation whose coordinates avoid the division planes of the world down to the depth limit is stored exactly once |
| `IndexTight.OnGridMultiplies` | spatial.py:66-75 | for every observation in the world on such a plane there are insertions of observations within the constructor's caps after which it is stored at least twice |
| `IndexTight.NeverTwiceExactly` | spatial.py:153-250 | no run of observations within the constructor's caps stores an observation in the world twice if and only if its coordinates avoid those planes, as long as levels times leaf capacity stay below the 2^63 names used |
| `IndexTight.DefaultsFit` | spatial.py:37-42 | the default depth and leaf capacity are far below that number |
| `SpatialIndexes.SpatialIndex.Insert` | spatial.py:241-250 | the object's tree and seen keys change as specified, and with them the set a scan would hold |
| `SpatialIndexes.SpatialIndex.QuerySphere` | spatial.py:268-274 | each observation is answered as often as it is stored, if it is in the sphere, and no other |
| `SpatialIndexes.SpatialIndex.QueryAabb` | spatial.py:276-281 | the same for a box, given the exact length of its diagonal |
| `SpatialIndexes.SpatialIndex.PruneExpired` | spatial.py:342-352 | the new tree, the new keys, and a count of removals that counts copies |
| `SpatialIndexes.SpatialIndex.FuseEntity` | spatial.py:322-327 | the fusion of exactly the stored observations of the entity, each as often as it is stored; only a merged result counts as a fusion |
| `SpatialIndexes.OfEntityCounts` | spatial.py:322-327 | the entries fused are those of the entity, each as often as it is collected |
| `SpatialIndexes.StoredKeysApart` | spatial.py:233-250 | in every reachable state, different stored observations have different keys, all seen, and lie in the world |
| `Fusion.EffectiveBounds` | spatial.py:106-112 | effective confidence lies between 0 and the raw one, is the raw one exactly while fresh, and 0 exactly after twice the decay time |
| `Fusion.EffectiveFades` | spatial.py:106-112 | it never increases with time |
| `Fusion.EffectiveLine` | spatial.py:106-112 | between the decay time and twice it, it falls on a straight line from the raw confidence to nothing |
| `Fusion.FusedBetween` | spatial.py:380-407 | a merged position lies, on every axis, between the lowest and the highest of the at least two observations that still count |
| `Fusion.FusedConfidence` | spatial.py:380-407 | a merged confidence is in [0.001, 1] and at most the larger of 0.001 and the best effective one |
| `Fusion.FusedIsMean` | spatial.py:391-401 | a merged confidence is the mean of the effective ones, around which they balance, or 0.001 where the mean is below |
| `Fusion.FusedAtLeastWorst` | spatial.py:391-401 | it is at least the worst effective one, and the common one where all are equal and at least 0.001 |
| `Fusion.FusedIsCentroid` | spatial.py:394-399 | on every axis the distances of the members from the merged position, weighted by effective confidence, cancel out |
| `Fusion.FusedTakesAfter` | spatial.py:380-407 | two or more that still count are merged and one is returned as it is; a merged one takes everything but place, time, confidence and agent from the first of the most confident, and names the number and the agents merged |
| `Fusion.FusesUnlessStale` | spatial.py:380-392 | fusion yields nothing if and only if every entry is at least twice the decay time old |
| `Fusion.OrderDoesNotMatter` | spatial.py:380-407 | the same observations in another order fuse to the same position and confidence |
| `Sorting.SortSorts` | transport_fallback.py:108-109 | the sort orders its input by any total preorder and keeps each element as often as it occurs |
| `Sorting.SortStable` | transport_fallback.py:108-109 | elements of equal rank keep the order they had |

## Left out

- The JSON codec: `json.dumps` and `json.loads` are an opaque pair of functions that read back bounded values exactly; so are base64 and the text of log lines, a line being a record or unreadable.
- `sanitize_text`: the printable characters are an abstract set with the space and the star in it; values that are not texts and would be turned into one are left out, and so are lone surrogates.
- Threads: one call at a time everywhere except in `OutboxRace`, where every interleaving of the outbox's split steps is a run. Concurrent `send` calls and concurrent assembler calls are not modelled.
- `OutboxRace`: a step machine over values, not methods of the class, because methods run to completion; each message id is enqueued at most once and appends succeed.
- `CompactRoundTrip`: says nothing about decoding bytes the encoder did not produce; some truncated inputs raise an error other than the protocol's own.
- `Transports.TransportChain.OnFrame`: decoding and the routers are parameters; an exception other than the protocol's own out of the decoder is not modelled, nor are the handlers' effects.
- `Transports.TransportChain.Send`: an exception out of a transport's `send_frame` ends the call and is not counted as an attempt, as in the code; the logger and the contents of audit events are left out.
- `Mesh.Provenance`: vectors, timestamps, redaction and the optional external backend are left out; the contents are texts within the caps.
- `AntiEntropy.RoundProgress`: assumes that every frame arrives, that digests are injective, that facts sit under masked ids, that sharing profiles are full and that the responder's store does not change during the exchange.
- `DutyCycle.SimulatedEther.SubmitAirtime`: the part of `submit` behind the airtime bookkeeping (random loss, jitter, schedule overflow, delivery) is left out.
- `DutyCycle.RollingHour`: requires that transmissions do not overlap, which the code does not enforce; for overlapping ones no bound is stated.
- `LoraDelivery.EndToEnd`: requires frames that are not themselves marked as segments, as `encode` makes them, and that the port delivers what was written.
- `SerialPipe.Pipe`: the two ends share one object per direction; locks are left out.
- `Audit.VerifiesExactly`: records with missing or ill-typed fields are left out; SHA-256 over canonical JSON is an injective function that never yields the genesis value; as no injective function into texts of 64 characters exists, digests are values beside such texts.
- `SpatialIndexes.SpatialIndex.QueryAabb`: the square root is a parameter required to be exact; floating-point rounding is not modelled anywhere, and `round(v, 6)` is exact rounding to the nearest, halves to even.
- `Fusion.FusedBetween`: a fused observation keeps the best one's orientation and size; its metadata is the count and the agents.
- `Outbox.OutboxStore.constructor`: a line that is JSON but no object, or whose `done` is no number, can raise out of the replay in the code and is not modelled.
- `OutboxRace.QuietFileIsPending`: compares sets of entries, because two concurrent writers can reach the file in another order than they took the lock.
- `Memory.InMemoryFactStore.StoreFact`: the vector and the creation, access and update clocks of a stored record are left out.
- `Memory.MemorySyncNode.OnEnvelope`: covers facts, reinforcements and tombstones; digest mail is `AntiEntropy.Responder.OnDigest`, and vectors, clocks, counters, callbacks and the external backend are left out.
- `MailEncoding.OnlyJsonCarries`: the JSON text of the fields is a parameter, short enough for the size cap.
- Coordinate transforms, entity and agent listings, serialisation of the index, statistics that only count, embeddings and ranking by cosine, sockets, HTTP, BLE, serial hardware, PostgreSQL, the dashboard, the command line and the console.
