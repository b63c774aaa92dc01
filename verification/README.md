# Rollback networking, modelled and proved in Dafny

The project models the deterministic core of a two-player rollback game: the fixed-point arena and its one-frame
transition, the rollback session over 256-slot tagged rings, the packet exchange between two peers, the duplicate filter,
the seeded transport, the packet and replay formats, the desync tracker, the live two-peer run and the datagram peer.

How the pieces build on each other:

- **Simulation.** `Simulation` is the transition, `ArenaRules` the same rules in plain numbers, `SimulationLaws` its
  invariant and totality, `SlotRefinement` its independence of slot placement, and `DamageLedger` the balance between
  shots, hits, health and points.
- **Time.** Frame numbers are 32-bit tags that wrap. Every proof speaks of unbounded frame numbers; `Core` and `FrameRings`
  prove once that tags, ring slots and `frame_before` agree with them on spans below 2^31.
- **Session.** `Timelines` is one session in unbounded time: whole histories, worlds recomputed by folding the simulation,
  no caches. `Sessions.RollbackSession` is the class over rings; each of its methods is proved to take its timeline exactly
  one step. `SessionLaws`, `CorrectionLaws` and `ExtrapolationLaws` then prove what holds over every run.
- **Exchange.** `Exchange` and `Runner` are `make_packet` and `process_delivery`; `Protocol` is the state machine of two
  peers, of one variant or two, over a network that loses, duplicates, delays and reorders without bound.
- **Live run.** `Transport` is the seeded queue; `Convergence` follows one peer of a lock-step run, `Lockstep` both peers
  and a loss-free queue, `Redundancies` both peers over a network that loses packets, and `LiveScenarios` is the class
  with `step_once`, up to `run_seeded_scenario` as one method.
- **Peer.** `Receptions`, `PeerReplays` and `Peers` are the datagram peer: what it makes of what it receives, the replay it
  writes, its phases and when it may finish.
- **Formats.** `Bits`, `Records`, `Bytes`, `Crc32s`, `Codec`, `Replays`, `Recordings` and `Canonical` are the byte formats;
  `Layouts` states them by offset.

The same state appears in two forms where the source mutates it: a class whose methods update fields, and a value that the
laws are about. The class's contracts say that the two stay equal.

Points where the code decides, not the documentation around it:

- docs/PROTOCOL.md lists unknown button bits among the decoder's refusals; `encode_packet` has no such check, so a packet
  can encode and then not decode, and `Codec.DecodeOfEncode` says exactly when.
- docs/REPLAY_FORMAT.md asks for contiguous frames and increasing checkpoints; `encode_replay` checks neither and
  `decode_replay` checks both, so `Replays.DecodeOfEncode` is conditional on `WellFormed`.
- docs/ROLLBACK_ALGORITHM.md calls the history that prediction searches bounded; the code's bound is 256 frames, which
  `ExtrapolationLaws.SearchForgets` states exactly.
- An input older than the rollback window is refused even when it is a redundant copy of one already held, because
  `ingest_remote` checks the window first.
- A session of at most 256 frames can lose its replay: an input 256 frames ahead evicts a confirmed one
  (`PeerReplays.InputAheadOfTheRingLosesTheReplay`). Only the engine profile refuses such inputs. `PeerReplays.ReplayOfRun`
  says exactly which runs keep their replay.
- Frame tags 2^31 or more past a session's first boundary cannot be told from frames 2^32 earlier. The code takes them as
  future and stores them under the earlier frame's slot and tag; `Timeline.Placed` says so, and no contract excludes them.

## Model

| member | source | states |
|---|---|---|
| `Core.TagsRefineFrames` | include/rollback_lab/core/frame.hpp:14-30 | on any span below 2^31, wrap included, tags are ordered, measured, counted and decoded exactly like unbounded frame numbers |
| `Core.HalfRangeIsAmbiguous` | include/rollback_lab/core/frame.hpp:14-19 | the bound is exact: two frames 2^31 apart are ordered neither way |
| `Core.NextTag` | include/rollback_lab/core/frame.hpp:27-30 | the successor of a tag is the tag of the successor |
| `FrameRings.IndexOfTag` | include/rollback_lab/core/frame.hpp:32-36 | 256 divides 2^32, so the slot of a tag is the slot of the unbounded number |
| `FrameRings.FrameRing.Put` | include/rollback_lab/netcode/frame_ring.hpp:17-23 | the ring answers for the new entry and for everything it answered for before except the entry in the same slot |
| `FrameRings.FrameRing.Get` | include/rollback_lab/netcode/frame_ring.hpp:25-32 | a lookup returns the value of that very frame or a stale-frame error, never another frame's value |
| `FrameRings.FrameRing.Contains` | include/rollback_lab/netcode/frame_ring.hpp:34-37 | true exactly for the frames the ring answers for |
| `FrameRings.StoreNext` | include/rollback_lab/netcode/frame_ring.hpp:17-32 | storing the next entry of a history evicts exactly the entry 256 older |
| `FrameRings.StoreAgain` | include/rollback_lab/netcode/frame_ring.hpp:17-32 | storing again at a retained entry replaces that entry and nothing else |
| `Simulation.SteerPlayers` | src/simulation/simulation.cpp:148-180 | the player loop cools down, faces, moves and clamps both players, or fails at the first overflow |
| `Simulation.SpawnShots` | src/simulation/simulation.cpp:182-191 | the firing loop spawns for A, then for B in the world A left |
| `Simulation.FirstFree` | src/simulation/simulation.cpp:61-66 | the least inactive slot, or the pool size when all are active |
| `Simulation.OrderProjectiles` | src/simulation/simulation.cpp:193-207 | the active slots in ascending stable id |
| `Simulation.SortIsUnique` | src/simulation/simulation.cpp:200-207 | there is only one arrangement sorted by id and slot, so the choice of sort does not matter |
| `Simulation.RunProjectiles` | src/simulation/simulation.cpp:208-237 | the projectile pass, one slot after another in that order |
| `Simulation.SimulateFrame` | src/simulation/simulation.cpp:136-241 | the whole transition: refuses mismatched frames and players, then steers, spawns and runs the pass |
| `SimulationLaws.InitialWorldIsSound` | src/simulation/simulation.cpp:125-134 | the initial world satisfies the invariant |
| `SimulationLaws.StepIsTotal` | src/simulation/simulation.cpp:136-241 | from a sound world with two ids to spare no frame fails, the next world is sound, and at most two ids are used |
| `SimulationLaws.SimulatedIsNext` | src/simulation/simulation.cpp:136-241 | with matching inputs the transition succeeds, advances the frame by one and depends on inputs only through their buttons |
| `SimulationLaws.ReachableWorldsAreSound` | src/simulation/simulation.cpp:125-241 | over any script up to frame 2^31 - 2 nothing fails and every world keeps positions, hp, cooldowns, facings, lifetimes and distinct ids below the counter in range |
| `ArenaRules.FrameFollowsTheRules` | src/simulation/simulation.cpp:136-241 | from every sound world the transition is exactly the rules in plain numbers, both directions: each player walks by its own buttons, A then B fires into the least free slot, every shot flies once, oldest id first, and nothing else is allowed |
| `ArenaRules.SteeringIsWalking` | src/simulation/simulation.cpp:148-180 | a player moves 4096 towards the one pressed direction of each axis, within 12288..1036288 and 12288..577536, turns to it, and cools down by one, by its own buttons only |
| `ArenaRules.SpawningIsFiring` | src/simulation/simulation.cpp:60-91 | a player fires exactly on its own bit 4, with its own cooldown spent and a slot free; the shot starts 18 units ahead, flies 8 units a frame for 120 frames and costs 15 frames of cooldown |
| `ArenaRules.TouchingIsFlying` | src/simulation/simulation.cpp:93-122 | a shot moves, ages, expires, leaves the arena or hits the other player within 16384 of it on both axes: 25 damage (26 under the biased rules), a point and a whole respawn when no health is left |
| `ArenaRules.ButtonsAreOnesOwn` | src/simulation/simulation.cpp:148-191 | the other player's buttons change nothing before the projectile pass, except that A may take the last free slot before B |
| `ArenaRules.StartingPositions` | src/simulation/simulation.cpp:125-134 | the initial world, field by field |
| `ArenaRules.MismatchesAreRefused` | src/simulation/simulation.cpp:136-146 | a frame runs exactly when world, frame and both inputs agree and each input is in its own player's place |
| `ArenaRules.OverflowIsRefused` | src/simulation/simulation.cpp:93-112 | in any state a walk or a flight fails exactly when a coordinate would leave 32 bits |
| `ArenaRules.LastIdIsRefused` | src/simulation/simulation.cpp:60-75 | a shot fails exactly when it would be fired and the ids have run out |
| `SlotRefinement.StepRefinesIdStep` | src/simulation/simulation.cpp:60-91 | first-free-slot allocation and the sorted pass compute exactly the transition on a map from id to shot, errors included |
| `SlotRefinement.SlotsAreInvisible` | src/simulation/simulation.cpp:193-237 | worlds that differ only in slot placement and stale slots step to worlds that differ only there |
| `SlotRefinement.FoldRefinesIdFold` | src/simulation/simulation.cpp:136-241 | over every input history from a sound world the pool computes the id-keyed fold |
| `DamageLedger.HitBalances` | src/simulation/simulation.cpp:227-236 | a hit by one player moves that player's ledger (four times its score plus the opponent's lost health in hits, modulo the 16-bit score) by exactly one and leaves the other's alone |
| `DamageLedger.FrameBalances` | src/simulation/simulation.cpp:136-241 | a frame moves each ledger by exactly the hits landed in it and never lands more hits than shots were fired |
| `DamageLedger.EveryPointIsPaid` | src/simulation/simulation.cpp:182-237 | over every canonical script score and lost health are exactly the hits landed, four to a point, up to the wrap of the score, and no more hits land than shots were fired |
| `Canonical.SerializeCanonical` | src/simulation/simulation.cpp:243-273 | the two loops produce the canonical layout |
| `Canonical.CanonicalBytesIdentifyTheWorld` | src/simulation/simulation.cpp:243-273 | every world has 1598 canonical bytes and equal bytes mean equal worlds |
| `Layouts.CanonicalLayout` | src/simulation/simulation.cpp:243-273 | every field of a canonical state by byte offset: version, frame, two players of 25 bytes, the next id, 64 slots of 24 bytes |
| `Canonical.Fnv1a64` | src/core/hash.cpp:5-14 | the byte loop computes FNV-1a |
| `Canonical.HashGrows` | src/core/hash.cpp:5-14 | in plain numbers: the hash of nothing is the offset basis, and one more byte is mixed in before the product with the prime modulo 2^64 |
| `Canonical.FnvStepIsInjective` | src/core/hash.cpp:5-14 | a step is injective in the register and in the byte, since the multiplier is invertible modulo 2^64 |
| `Canonical.HashOf` | src/simulation/simulation.cpp:275-277 | the hash of a world is FNV-1a of its canonical bytes |
| `Canonical.OneByteChangesTheHash` | src/simulation/simulation.cpp:275-277 | worlds whose canonical bytes differ in exactly one byte have different hashes |
| `Timelines.WorldsSeeButtons` | src/netcode/session.cpp:10-13 | a boundary depends on the inputs before it only, and on remote inputs only through their buttons |
| `Timelines.ConfirmationIsBounded` | src/netcode/session.cpp:73-85 | the confirmation loop stops after at most 256 iterations |
| `Timelines.ConfirmedRange` | src/netcode/session.cpp:73-85 | the boundary moves over exactly the frames with both inputs that no correction touches |
| `Timelines.BoundaryIsSound` | src/netcode/session.cpp:87-128 | every boundary of a valid session is sound, carries its tag and was simulated without error |
| `Timelines.PlacedIsFaithful` | src/netcode/session.cpp:138-149 | for any tag at all, the frame an input is kept at has that tag, and is before the present, at that distance, exactly when the tag comparison says late |
| `Sessions.RollbackSession.constructor` | src/netcode/session.cpp:25-31 | starts an empty timeline, with the initial hash stored |
| `Sessions.RollbackSession.PredictedRemote` | src/netcode/session.cpp:42-55 | the nearest known input at most 256 frames back, relabelled, or neutral |
| `Sessions.RollbackSession.UpdateConfirmation` | src/netcode/session.cpp:73-85 | the tag loop moves the boundary exactly as in unbounded time |
| `Sessions.RollbackSession.MarkDirty` | src/netcode/session.cpp:63-71 | the two tag comparisons move both marks exactly as in unbounded time: to the earlier frame, across wrap too |
| `Sessions.RollbackSession.Advance` | src/netcode/session.cpp:87-128 | corrects first, then extends the histories by one frame, answering with its frame, its hash and a prediction flag that is the growth of the prediction counter, or refuses the input after correcting |
| `Sessions.RollbackSession.IngestRemote` | src/netcode/session.cpp:130-160 | for every input: refuses the wrong player, then tags more than the rollback window and less than half the range behind the present, otherwise stores, counts, marks and confirms |
| `Sessions.RollbackSession.FlushCorrections` | src/netcode/session.cpp:162-209 | cannot fail: restores the dirty snapshot, resimulates up to the present and rewrites every snapshot, used input and hash of the range; the answer says `performed` exactly when a rollback was counted, how many frames were added to the resimulated ones, and from which frame on, everything before it being kept |
| `CorrectionLaws.MarkIsEarliest` | src/netcode/session.cpp:63-71 | over every run, whatever the remote sends, the pending mark is the earliest frame contradicted by a taken input since the last correction |
| `CorrectionLaws.CorrectionsGoBackToTheEarliest` | src/netcode/session.cpp:162-209 | so a flush performs a correction exactly when some frame was contradicted, and its answer is the tag of the earliest one and the frames from there to the present |
| `Sessions.CorrectionIsServiceable` | src/netcode/session.cpp:168-179 | a pending correction is within the rollback window and its snapshot is still in the ring |
| `Sessions.RollbackSession.Report` | src/netcode/session.cpp:211-214 | the present world, its hash, the boundary and the counters |
| `Sessions.RollbackSession.HashAt` | src/netcode/session.cpp:228-236 | the hash of that boundary when it is confirmed and retained, else stale |
| `Sessions.RollbackSession.StateAt` | src/netcode/session.cpp:238-249 | the world of that boundary when it is confirmed and retained, else stale |
| `Sessions.RollbackSession.ConfirmedInput` | src/netcode/session.cpp:216-226 | the input of that player before the boundary when retained, else stale |
| `SessionLaws.OperationsAreHonest` | src/netcode/session.cpp:87-209 | every operation against an honest remote keeps validity and truth, and never lowers the boundary or moves it past the present |
| `SessionLaws.RunsAreHonest` | src/netcode/session.cpp:87-209 | so does every run, with ingests in any order, early, late or repeated |
| `SessionLaws.ConfirmedWorldIsTrue` | src/netcode/session.cpp:73-85 | every confirmed boundary is the direct fold over the true input pairs |
| `SessionLaws.ConfirmedAnswersAreTrue` | src/netcode/session.cpp:216-249 | every answer of a confirmed query is the direct fold's, even while a correction is pending |
| `SessionLaws.ConfirmedAnswersExist` | src/netcode/session.cpp:228-249 | confirmed boundaries fewer than 256 frames back are always answered |
| `ExtrapolationLaws.PredictionExtrapolates` | src/netcode/session.cpp:42-55 | on an unconfirmed frame the session uses the actual input, else the last one heard, else neutral |
| `ExtrapolationLaws.SearchForgets` | src/netcode/session.cpp:42-55 | the search finds the latest known input exactly when it is at most 256 frames old |
| `ExtrapolationLaws.OperationsKeepLedger` | src/netcode/session.cpp:87-209 | every operation with current or past inputs keeps the newest 256 heard frames retained and the counters balanced, however far the boundary lags |
| `ExtrapolationLaws.OperationsKeepStory` | src/netcode/session.cpp:87-209 | while the boundary lags by at most 254 frames, every operation also keeps the used inputs equal to the extrapolation of what was heard |
| `ExtrapolationLaws.DeliveryOrderIsIrrelevant` | src/netcode/session.cpp:87-209 | two runs with the same local inputs and the same set of accepted remote inputs flush to the same state, whatever their order |
| `ExtrapolationLaws.MetricsAreConserved` | src/netcode/session.cpp:108-114 | in every run with current or past inputs, however long the remote stays silent: predictions minus late inputs are the frames still unheard, and rollbacks <= resimulated frames <= rollbacks times deepest <= the limit times rollbacks |
| `SequenceWindows.SequenceWindow.Observe` | src/protocol/sequence_window.cpp:5-37 | mask bit i is set exactly when newest - i was accepted, across wrap, and the verdict is the set's |
| `SequenceWindows.AcceptedAtMostOnce` | src/protocol/sequence_window.cpp:5-37 | no logical sequence is accepted twice in any run |
| `SequenceWindows.UnseenIsAccepted` | src/protocol/sequence_window.cpp:27-36 | an unseen sequence fewer than 64 behind everything received is never rejected |
| `SequenceWindows.VerdictByHistory` | src/protocol/sequence_window.cpp:5-37 | the verdict by the numbers received before: newest beyond the greatest, stale 64 or more behind it, otherwise a duplicate exactly when received before |
| `Crc32s.ComputeCrc32` | src/protocol/crc32.cpp:5-16 | the nested loops compute the reflected CRC-32 |
| `Crc32s.ChecksumGrows` | src/protocol/crc32.cpp:5-16 | the checksum of nothing is 0, and one more byte is mixed into the inverted checksum, which then takes exactly eight bit steps |
| `Crc32s.BitStepHalves` | src/protocol/crc32.cpp:10-12 | a bit step halves an even register and mixes an odd one with 0xEDB88320 |
| `Crc32s.BitStepIsInjective` | src/protocol/crc32.cpp:10-14 | one bit step of the register is injective |
| `Bits.XorBits` | src/protocol/crc32.cpp:9-15 | a bit of the exclusive-or is set exactly when it is set in one operand and not the other |
| `Crc32s.OneByteIsCaught` | src/protocol/crc32.cpp:5-16 | replacing one byte of an intact message, checksum included, breaks it |
| `Bytes.ByteWriter.AppendLittleEndian` | include/rollback_lab/protocol/bytes.hpp:15-25 | appends the little-endian bytes of the value |
| `Bytes.ByteWriter.PatchU16` | include/rollback_lab/protocol/bytes.hpp:36-39 | replaces exactly two bytes |
| `Bytes.ByteReader.ReadLittleEndian` | include/rollback_lab/protocol/bytes.hpp:53-69 | reads the number those bytes stand for and moves past it, or reports truncation without moving |
| `Bits.NumberOfLittleEndian` | include/rollback_lab/protocol/bytes.hpp:15-69 | reading what was written gives the number back |
| `Layouts.LittleEndianDigits` | include/rollback_lab/protocol/bytes.hpp:15-25 | the bytes of a number, least significant first |
| `Codec.EncodePacket` | src/protocol/codec.cpp:46-140 | the encoder with its checks in order and its patched length |
| `Codec.EncodingIsSmall` | src/protocol/codec.cpp:113-139 | no encoding exceeds 740 bytes, so both size failures are unreachable |
| `Codec.DecodePacket` | src/protocol/codec.cpp:142-287 | the decoder with its checks in order |
| `Codec.DecodeOfEncode` | src/protocol/codec.cpp:46-287 | an encodable packet decodes to itself exactly when its inputs use the five known buttons |
| `Codec.EncodeOfDecode` | src/protocol/codec.cpp:46-287 | every accepted byte string is the encoding of the packet it decodes to |
| `Codec.OneByteCorruptionIsCaught` | src/protocol/codec.cpp:150-156 | an accepted packet with one byte changed fails with an integrity error |
| `Layouts.PacketLayout` | src/protocol/codec.cpp:46-140 | every field of an encoded packet by byte offset: 32-byte header, 10 bytes an input, 12 a hash, 16 a greeting, checksum |
| `Layouts.PacketRefusals` | src/protocol/codec.cpp:142-222 | for any bytes at all, the error of a packet refused before its payload, by the first check that fails |
| `Layouts.UnencodablePackets` | src/protocol/codec.cpp:46-100 | the error of a packet that is not encoded, by the first check that fails |
| `Desyncs.DesyncTracker.Observe` | src/report/desync.cpp:13-47 | ignores agreeing or unconfirmed comparisons and later divergences, else records the summary with the last 32 inputs |
| `Desyncs.RecordIsEarliest` | src/report/desync.cpp:13-47 | over any run of comparisons the record is the first of those at the least divergent frame, and is empty exactly when none diverged |
| `Exchange.MadePacketEncodes` | src/report/scenario_runner.cpp:62-89 | a packet made from a valid session with at least one own input encodes and decodes back to itself |
| `Exchange.HashesBehindAscend` | src/report/scenario_runner.cpp:74-88 | its hashes are the session's own answers at consecutive ascending boundaries |
| `Exchange.DiagnosticInputsPrecede` | src/report/scenario_runner.cpp:91-108 | the diagnostic inputs are the confirmed pairs of the frames just before the boundary, in order, as many as are answered up to 32 |
| `Exchange.ComparedRecords` | src/report/scenario_runner.cpp:223-248 | a changed record holds the session's own answer, a different remote hash, the confirmed pairs just before the boundary (as many in a row as the session answers, up to 32), both players and the shots of the session's own state there, and the seed |
| `Exchange.DifferenceIsRecorded` | src/report/scenario_runner.cpp:223-248 | a hash that differs from the session's answer leaves a record behind |
| `Runner.MakePacket` | src/report/scenario_runner.cpp:62-89 | the loop over confirmed hashes and its reversal build exactly that packet |
| `Runner.DiagnosticInputs` | src/report/scenario_runner.cpp:91-108 | the loop and its reversal collect exactly those pairs |
| `Runner.ProcessDelivery` | src/report/scenario_runner.cpp:178-250 | undecodable bytes change nothing; a packet is filtered, ingested, corrected and compared, stopping at the first error; `Exchange.ComparedRecords` says what a difference leaves on record |
| `Protocol.StepIsGood` | src/report/scenario_runner.cpp:178-250 | generating, sending, delivering anything ever sent, whether the duplicate filter lets it through or not, advancing and flushing keep every session honest and every letter true and truly labelled (sender, number, scenario, acknowledgement, consecutive inputs and hashes up to the confirmed frame) |
| `Protocol.ExchangesAreGood` | src/report/scenario_runner.cpp:62-250 | so does every run of two peers over any network, whatever their variants |
| `Protocol.DesyncsAreReal` | src/report/scenario_runner.cpp:223-248 | in every such run whatever a tracker holds is a boundary at which the two peers' simulations differ, with the true hash of each, the scripted pairs just before it in order, both players and the shots in the air of the peer's own simulation there, and the scenario's seed |
| `Protocol.NoFalseDesync` | src/report/scenario_runner.cpp:223-248 | so peers of one variant never hold a diagnostic, and every hash in flight is the true fold's |
| `Protocol.DifferenceIsDetected` | src/report/scenario_runner.cpp:197-248 | when a packet is let through with a hash for a boundary its receiver answers, and the simulations differ there, a diagnostic is held |
| `Protocol.ConfirmedPeersAgree` | src/report/scenario_runner.cpp:178-250 | a boundary confirmed by both peers is each one's direct fold: the same world when they share a variant |
| `Transport.SeededTransport.EnsureCapacity` | src/transport/seeded_transport.cpp:40-71 | succeeds exactly when the packets fit afterwards; fails without a change or evicts as specified |
| `Transport.EvictionTakesTheOldest` | src/transport/seeded_transport.cpp:55-64 | whatever is evicted is older than everything that stays |
| `Transport.EvictionIsNeeded` | src/transport/seeded_transport.cpp:55-64 | eviction stops in time: with the last evicted packet still queued the new ones would not fit |
| `Transport.RefusalIsNoRoom` | src/transport/seeded_transport.cpp:43-70 | in plain numbers: a packet is refused exactly when its copies exceed the limits beside the queue, or, when old packets make way, on their own |
| `Transport.SeededTransport.DrawSchedule` | src/transport/seeded_transport.cpp:114-136 | the delay is base - jitter plus a draw modulo 2 * jitter + 1, at least 0, plus a rank that is positive exactly when the reorder chance hits, saturating at the last tick; so between base - jitter and base + 2 * jitter + 2 |
| `Transport.JitterSpansTheDraws` | src/transport/seeded_transport.cpp:114-136 | in plain numbers: draw d of the jitter moves a copy to base + d - jitter ticks from now, never before now; the reorder chance adds one tick and the next draw, as its rank |
| `Transport.SeededTransport.Send` | src/transport/seeded_transport.cpp:73-146 | refuses, loses or queues, decided by the draws of the random source in their order: lost exactly in a burst or when one of the two loss chances hits, doubled exactly when the duplicate chance hits, delayed by the jitter and rank drawn, refused exactly when the copies cannot fit; 0 percent never and 100 percent always happens; every counter's new value; what stays queued is what the eviction leaves |
| `Transport.ExtendedKeeps` | src/transport/seeded_transport.cpp:40-71 | a send that has room, or that the failing policy admits, leaves every queued packet where it was |
| `Transport.ArrangedIsInOrder` | src/transport/seeded_transport.cpp:149-158 | sorting keeps the packets and puts them in strict (tick, rank, ordinal) order |
| `Transport.SeededTransport.Deliver` | src/transport/seeded_transport.cpp:148-187 | delivers in that order, each ordinal at most once ever, within the byte budget |
| `Transport.SweepConserves` | src/transport/seeded_transport.cpp:160-186 | a sweep loses nothing and spends at most its budget |
| `Transport.SweepSelects` | src/transport/seeded_transport.cpp:163-185 | nothing is delivered early or over age, and only what is over age is dropped |
| `Transport.SweepKeepsOrder` | src/transport/seeded_transport.cpp:160-186 | deliveries and leftovers keep the order and share no packet |
| `Transport.AmpleSweepIsExact` | src/transport/seeded_transport.cpp:160-186 | with enough bandwidth and nothing over age exactly the due packets are delivered |
| `Transport.SweepIsFair` | src/transport/seeded_transport.cpp:148-187 | deliveries leave by tick, then rank, then ordinal; exactly what is over age is dropped; a due packet stays only when what left sooner used up the bandwidth it needed |
| `Convergence.ContradictionIsShallow` | src/netcode/session.cpp:153-157 | when every frame up to a deadline has been heard, a contradiction is at most the lag deep |
| `Convergence.IngestAllOnTime` | src/report/scenario_runner.cpp:197-202 | a whole redundant window inside the rollback window is ingested without error |
| `Convergence.BoundaryFollowsDeadline` | src/netcode/session.cpp:73-85 | with nothing pending the boundary is past every frame heard in time |
| `Convergence.ArrivingIsFresh` | src/protocol/sequence_window.cpp:27-36 | a packet at most 63 ticks late is accepted unless it is a duplicate |
| `Convergence.DeliveryInStep` | src/report/scenario_runner.cpp:178-250 | a packet arriving in time is accepted, cannot fail and keeps its receiver on schedule |
| `Lockstep.QueueIsBounded` | src/transport/seeded_transport.cpp:113-141 | a loss-free run never queues more than four packets per tick of the longest delay |
| `Lockstep.DeliverOnSchedule` | src/report/scenario_runner.cpp:252-263 | the deliveries of a tick cannot fail and leave every packet due accepted |
| `Lockstep.TickOnSchedule` | src/report/scenario_runner.cpp:400-498 | every tick of a loss-free run keeps it on schedule |
| `Lockstep.LossFreeRunsConverge` | src/report/scenario_runner.cpp:400-498 | without loss, with room, and D = base + 2 * jitter + 2 <= min(63, tail + 32), no delivery fails and both peers end confirmed at the last frame, in the same state when they share a variant, never rolling back more than D frames |
| `Redundancies.LiveTickIsLossy` | src/report/scenario_runner.cpp:400-493 | whatever the transport drops, delays or repeats, a tick of the live run is a tick over a network that may lose anything |
| `Redundancies.RedundantRunsConverge` | src/report/scenario_runner.cpp:400-498 | under any loss, when each frame reaches each peer within the lag in some packet that carries it, no delivery fails, both peers end confirmed at the last frame, and no rollback is deeper than the lag |
| `Redundancies.ShortBurstsConverge` | src/report/scenario_runner.cpp:62-89 | losing at most 31 packets in a row is survived: when of every 32 consecutive packets to a peer one gets through within the delay, both peers converge |
| `Redundancies.EnduringRunsArrive` | src/report/scenario_runner.cpp:400-498 | the trace a live run leaves behind, ended early or not: while each frame gets through within the lag no arrival fails, and at its end both peers have converged |
| `Redundancies.ShortBurstsEndure` | src/report/scenario_runner.cpp:62-89 | for such a trace it is enough that of every 32 consecutive packets to a peer whose time is up one got through within the delay |
| `Recordings.Recorder.Record` | src/report/scenario_runner.cpp:265-271 | keeps the pair, steps the direct simulation and takes a checkpoint at every 30th boundary and the last |
| `Recordings.CheckpointsAreDue` | src/report/scenario_runner.cpp:265-271 | the checkpoints are at every 30th boundary and the target, and nowhere else |
| `Recordings.RecordingHolds` | src/report/scenario_runner.cpp:411-420 | a complete recording is a replay that verifies and encodes |
| `LiveScenarios.LiveScenario.Receive` | src/report/scenario_runner.cpp:178-250 | one delivery over live objects is exactly the delivery of its letter in the two-peer model |
| `LiveScenarios.LiveScenario.ProcessTick` | src/report/scenario_runner.cpp:252-263 | a tick's deliveries in transport order, stopping at the first error |
| `LiveScenarios.LiveScenario.SendPackets` | src/report/scenario_runner.cpp:422-436 | both packets are made before either is sent; the wire gains exactly those letters, and a loss-free transport queues them |
| `Lockstep.SendsInTurn` | src/report/scenario_runner.cpp:422-436 | on a loss-free transport a tick queues one or two copies of A's packet to B, then one or two of B's to A, behind everything already queued |
| `LiveScenarios.LiveScenario.RunTick` | src/report/scenario_runner.cpp:400-493 | on any transport a tick keeps both sessions honest and every letter true and is a tick over a lossy network; only a refused packet or a failing arrival stops it, and a transport that drops the oldest and has room for two packets refuses none; a loss-free tick succeeds and stays on schedule |
| `LiveScenarios.LiveScenario.Finalize` | src/report/scenario_runner.cpp:328-399 | for peers of any variants: the recorded replay verifies; success is exactly both peers confirmed at the target, both folds and the direct one ending alike, and no desync; the counters are the two peers' sums and the greater depth, the boundary the lesser of the two, the hashes each peer's own; the earlier real desync is reported and also ends the run; otherwise the error says which is missing |
| `LiveScenarios.LiveScenario.Step` | src/report/scenario_runner.cpp:523-541 | a failure is sticky and so is the end of the run; unknown live buttons are refused without failing; any other call is a tick over a lossy network that leads to the next one or, after the last, to the verdict on both peers flushed |
| `LiveScenarios.SuccessMeansConfirmed` | src/report/scenario_runner.cpp:355-384 | the reported boundary is the target only when both peers' boundaries are, and success asks for equal hashes and no desync |
| `LiveScenarios.RunSeededScenario` | src/report/scenario_runner.cpp:550-572 | for any variant of peer B: a report is a success with equal hashes of the direct simulation, or names a boundary where the two simulations really differ; loss-free runs within the delay bound report with depth at most D, unless different variants end in different states; under loss the ticks form one run over a lossy network, and for every delay below 64 and lag below 254 and at most tail + 32 that run kept to (every frame reached each peer within the lag in some packet that carries it), no delivery failed and the run ends with both boundaries at the target and depth at most the lag |
| `Replays.EncodeReplay` | src/replay/replay.cpp:44-101 | the encoder with its checks in order |
| `Replays.DecodeReplay` | src/replay/replay.cpp:103-225 | the decoder with its checks in order |
| `Replays.DecodeOfEncode` | src/replay/replay.cpp:44-225 | an encodable replay decodes to itself exactly when frames are contiguous, buttons known and checkpoints ordered |
| `Replays.EncodeOfDecode` | src/replay/replay.cpp:44-225 | every accepted file is the encoding of the well-formed replay it decodes to |
| `Replays.OneByteCorruptionIsCaught` | src/replay/replay.cpp:107-110 | an accepted file with one byte changed fails with an integrity error |
| `Layouts.ReplayLayout` | src/replay/replay.cpp:44-101 | every field of an encoded replay by byte offset: 48-byte header, 14 bytes a pair, 12 a checkpoint, checksum |
| `Layouts.ReplayRefusals` | src/replay/replay.cpp:103-150 | for any bytes at all, the error of a file refused before its tables, by the first check that fails |
| `Layouts.UnencodableReplays` | src/replay/replay.cpp:44-80 | the error of a replay that is not encoded, by the first check that fails |
| `Replays.VerifyReplay` | src/replay/replay.cpp:227-270 | succeeds exactly when frames match, every step succeeds, checkpoints increase within 1..final and every hash is the fold's; a failure says, at the frame where it stops, that a label is wrong, that the step fails and how, or that a hash differs |
| `PeerReplays.BuildReplay` | src/udp/peer.cpp:303-334 | folds the confirmed pairs again with checkpoints, stopping at the first missing input |
| `PeerReplays.BuiltReplayIsLabelled` | src/udp/peer.cpp:303-334 | the replay names its own scenario seed, transport seed and target, under the canonical rules |
| `PeerReplays.OperationsUseInputs` | src/netcode/session.cpp:87-209 | every operation, with any input from any remote, keeps settled frames simulated with the inputs still held |
| `PeerReplays.RunsUseInputs` | src/netcode/session.cpp:130-160 | so in every run, and frame k below 256 is still held exactly when the last input accepted into its slot was for frame k |
| `PeerReplays.EarlyRunsEvictNothing` | src/netcode/session.cpp:87-209 | with inputs of the first 256 frames only, no confirmed input is ever lost |
| `PeerReplays.ReplayOfConfirmedSession` | src/udp/peer.cpp:303-334 | a canonical session from the initial world, confirmed at its target at most 256 frames in, has a replay that encodes, verifies, holds every pair and due checkpoint and ends with the session's own hash exactly when every confirmed input is still held; otherwise the replay fails as stale |
| `PeerReplays.ReplayExistsExactly` | src/udp/peer.cpp:303-334 | for any variant and remote, `build_replay` succeeds exactly when the session is confirmed at its target and still holds every input; the replay then verifies, encodes and ends with the canonical simulation of the confirmed inputs |
| `PeerReplays.ReplayOfRun` | src/udp/peer.cpp:303-334 | over every run of a canonical session, whatever its remote sends: the replay exists, verifies and ends with the session's own hash exactly when, for each frame below the target, the last input accepted into its slot was for that frame |
| `PeerReplays.ReplayOfEarlyRun` | src/udp/peer.cpp:303-334 | so a run whose inputs all belong to the first 256 frames never loses its replay |
| `PeerReplays.InputAheadOfTheRingLosesTheReplay` | src/udp/peer.cpp:311-319 | one remote input 256 frames ahead of the start makes the replay of a confirmed session fail with a stale frame |
| `Peers.PeerDriver.Absorb` | src/udp/peer.cpp:233-284 | for every packet: the engine profile refuses frames at or past the target before anything changes; otherwise the inputs are ingested and corrected and an ingest error is returned; the first hash that differs from the session's own answer is a desync with its diagnostic, success means every hash agreed, and the one for the target is remembered |
| `Receptions.HonestRemoteAgrees` | src/udp/peer.cpp:247-284 | a packet of an honest remote keeps the session honest, and a hash in it then differs from the session's answer exactly at boundaries where the two direct simulations differ, so peers of one variant never see a desync |
| `Receptions.OnlyNewPacketsAreTaken` | src/udp/peer.cpp:187-285 | an input packet of the right port, peer and scenario with a number not seen before and less than 64 behind is ingested and corrected and its number remembered; no other datagram touches the session, the window, the remembered hash or the diagnostic |
| `Receptions.RefusalsSayWhy` | src/udp/peer.cpp:191-228 | the answer to every other datagram, by the first check that fails; duplicates and old packets are no error |
| `Peers.PeerDriver.ReceiveOne` | src/udp/peer.cpp:187-285 | one poll of the socket: silence and failure change nothing, a datagram does exactly what `Taken` says |
| `Peers.PeerDriver.DrainAvailable` | src/udp/peer.cpp:287-301 | polls until the first silence, failure or error, and at most 64 times; the state afterwards is the fold over what the socket handed over |
| `Peers.PeerDriver.SendInputs` | src/udp/peer.cpp:166-185 | sends the relay exactly one datagram, the encoding of this session's packet under the next number |
| `Receptions.DrainIsTruthful` | src/udp/peer.cpp:187-301 | draining an honest remote keeps the session on the script, the diagnostic real and the remembered final hash the remote fold's, and never ends in a desync between peers of one variant |
| `Receptions.DrivenRunsAreTruthful` | src/udp/peer.cpp:504-564 | so does every run of running and confirming steps: the session simulates the script throughout, and peers of one variant never stop over a desync |
| `Peers.PeerDriver.ShakeHands` | src/udp/peer.cpp:512-531 | greets, asks the socket once and answers exactly a decoded greeting of the other peer with the right port, scenario, versions, target and digest, which alone leaves the handshake; anything else that arrives is an error; the timeout is enforced before anything is sent |
| `Peers.PeerDriver.PlayFrame` | src/udp/peer.cpp:535-546 | drains, then advances by the script's next input and sends one packet, or stops at the first error with what was received so far; the last frame moves to confirming; a failed advance or encoding is unreachable |
| `Peers.PeerDriver.Confirm` | src/udp/peer.cpp:547-560 | sends the window again, drains, and counts the steps in a row that end confirmed at the target with a remote hash for it; a step that succeeds finishes exactly on the 16th, and only the artifacts can still fail it |
| `Peers.PeerDriver.BuildArtifacts` | src/udp/peer.cpp:351-426 | in both profiles artifacts exist exactly when the session is confirmed at its target, still holds every input and shares the remote's final hash, and, in the engine profile, its canonical rerun ends alike; the replay verifies to that rerun, which for a canonical session is the session's own hash |
| `Peers.PeerDriver.Step` | src/udp/peer.cpp:504-564 | phases only move handshake, running, confirming, finished or to failed; failed and finished are absorbing; a reversed clock is refused without failing; both timeouts fail before anything is received or sent; otherwise everything received, played and sent is a function of what the socket handed over in this step |
| `Peers.Create` | src/udp/peer.cpp:457-474 | accepts exactly sessions of the right player at frame 0 with a target within the profile's limit, whatever inputs they already hold |

## Left out

- Error detail, offset and context strings: errors are their codes.
- Sessions.RollbackSession.constructor: asks for an initial world that satisfies the simulation invariant; from others a frame may fail after its input is stored, and the source says nothing of such a session.
- Sessions.RollbackSession.Advance: asks for room in the projectile ids (the initial id plus two per frame below 2^32), which also keeps frame tags within half their range; the simulation error past that point is not modelled.
- DamageLedger.EveryPointIsPaid: for the canonical rules; with damage bias a hit is not a whole quarter of the health and no such ledger is stated.
- Counter widths: metrics, ordinals and logical ticks are unbounded.
- Dishonest remotes in `SessionLaws`, `ExtrapolationLaws` and `Protocol`; `PeerReplays` and `Peers` do allow them.
- ExtrapolationLaws.MetricsAreConserved: assumes a rollback limit below 256, since under a larger one an old input can evict a newer one that is then counted late twice; src/c_api/session_api.cpp:80-81 admits at most 120.
- ExtrapolationLaws.DeliveryOrderIsIrrelevant: assumes the boundary lags by at most 254 frames and a rollback limit below 256, since prediction forgets inputs older than 256 frames.
- Transport.SeededTransport.Send: the random source is an arbitrary stream with the stated bounds, so PCG32 itself is not modelled; what each draw decides, and in which order, is.
- LiveScenarios.LiveScenario.constructor: takes sessions that have not started (no inputs yet, counters at zero); `create` (src/report/scenario_runner.cpp:504-521) checks only their frame, world and player.
- LiveScenarios.LiveScenario.Step: the script is an arbitrary five-bit function of frame and player that already holds the buttons A gives live, so live buttons must be those of the script.
- LiveScenarios.RunSeededScenario: tails that bring frames plus tail near or past 2^31 but below the refused 2^32, where sequence numbers pass half their range.
- Lockstep.LossFreeRunsConverge: the room it asks for is four largest packets per tick of the longest delay, which is sufficient and not claimed to be necessary.
- Peers.PeerDriver.ShakeHands: the greeting bytes and the expected digest are given; `encode_hello` and `scenario_config_digest` are not modelled.
- Peers.Create: a session that started elsewhere and has wrapped around to frame 0, and one without projectile ids for 257 frames.
- Peers.PeerDriver.ReceiveOne: transport metrics and the last correction kept for display are not modelled.
- Sockets, clocks and files: datagrams, send failures and elapsed time are arbitrary.
- Trace capture, JSON reports, run identity text and the C interface, beyond its guard that ingested frames are current or past.
- Contents of `scripted_input`, PCG32 statistics, general collision resistance of CRC-32 and FNV-1a, and authentication.
- The Unreal plugin, the command line, the relay, child processes and the property sweep.
