/** The live run over real sessions, windows, trackers, packets and transport (src/report/scenario_runner.cpp). */
module LiveScenarios {
  import opened Core
  import opened Simulation
  import opened SimulationLaws
  import opened Canonical
  import opened Timelines
  import opened SessionLaws
  import opened Sessions
  import opened SequenceWindows
  import opened Codec
  import opened Desyncs
  import opened Exchange
  import opened Runner
  import opened Protocol
  import opened Convergence
  import opened Lockstep
  import opened Redundancies
  import Replays
  import opened Recordings
  import T = Transport

  /** What became of a tick: it ran to its end, an arrival failed in it, or the transport refused a packet. */
  datatype Outcome = Ran(m: Arrivals, after: Net) | Failed(m: Arrivals) | Refused

  ghost predicate Became(s: Setup, plan: Plan, before: Net, tick: nat, o: Outcome) {
    match o
    case Ran(m, after) => LossyTick(s, plan, before, tick, m, after)
    case Failed(m) => FailingTick(s, plan, before, tick, m)
    case Refused => true
  }

  /** Old packets make way for new ones, and two copies of the largest packet fit. */
  predicate Roomy(c: T.Config) {
    T.PercentsAreValid(c) && c.policy.DropOldest? && 2 <= c.maxPackets && 2 * LARGEST_PACKET <= c.maxBytes
  }

  /** The only error a packet of the run can be refused with. */
  function Refusal(c: T.Config): ErrorCode { if T.PercentsAreValid(c) then QueueOverflow else InvalidArgument }

  /** What is true at any moment of any run, lossy or not. */
  ghost predicate Sane(s: Setup, net: Net, queue: seq<T.Scheduled>, sent: nat) {
    && Good(s, net)
    && (forall q :: q in queue ==> Genuine(net, q) && q.enqueuedAt < sent)
    && (forall letter :: letter in net.wire ==> letter.packet.sequence == Tag(letter.number))
    && NumbersWithin(net.a.endpoint.window, sent) && NumbersWithin(net.b.endpoint.window, sent)
  }

  ghost predicate NumbersWithin(w: Window, sent: nat) { w.newest.Some? ==> 1 <= w.newest.value <= sent }

  /** The receiver's window can order the packet against everything it has received. */
  ghost predicate Receivable(net: Net, q: T.Scheduled) {
    && Decoded(q.bytes).Ok? && Decoded(q.bytes).value.sequence == Tag(q.enqueuedAt + 1) && q.enqueuedAt + 1 < HALF
    && NumbersWithin(net.a.endpoint.window, HALF) && NumbersWithin(net.b.endpoint.window, HALF)
  }

  lemma SaneIsReceivable(s: Setup, net: Net, queue: seq<T.Scheduled>, sent: nat, q: T.Scheduled)
    requires Sane(s, net, queue, sent) && q in queue && sent < HALF
    ensures Genuine(net, q) && Receivable(net, q)
  {
    hide Good, Decoded;
    assert LetterOf(q) in net.wire;
  }

  lemma SentBefore(s: Setup, net: Net, queue: seq<T.Scheduled>, sent: nat, q: T.Scheduled)
    requires Sane(s, net, queue, sent) && q in queue
    ensures q.enqueuedAt < sent
  {
    hide Good, Genuine;
  }

  lemma ProcessedWindow(e: Endpoint, packet: Packet, number: int, seed: u64, sent: nat)
    requires e.session.Valid() && NumbersWithin(e.window, sent)
      && 1 <= number <= sent
    ensures NumbersWithin(Processed(e, packet, number, seed).0.window, sent)
  {
    hide Timeline.Valid, IngestedAll, ComparedAll;
  }

  lemma LandingIsSane(s: Setup, net: Net, queue: seq<T.Scheduled>, sent: nat, q: T.Scheduled)
    requires Sane(s, net, queue, sent) && Good(s, net) && Genuine(net, q) && q.enqueuedAt < sent
    ensures Sane(s, Landing(s, net, q).0, queue, sent)
  {
    hide Good, Decoded, Processed, Timeline.Valid, NumbersWithin;
    var letter := LetterOf(q);
    LetterIsDeliverable(s, net, letter);
    ProcessedWindow(net.At(letter.to).endpoint, letter.packet, letter.number, s.scenario, sent);
    SameWire(net, Landing(s, net, q).0, queue);
  }

  lemma SaneIsDeliverable(s: Setup, net: Net, queue: seq<T.Scheduled>, sent: nat)
    requires Sane(s, net, queue, sent)
    ensures Deliverable(s, net, queue)
  {
    hide Good, Genuine;
  }

  lemma SubQueueIsSane(s: Setup, net: Net, queue: seq<T.Scheduled>, sent: nat, part: seq<T.Scheduled>)
    requires Sane(s, net, queue, sent) && forall q :: q in part ==> q in queue
    ensures Sane(s, net, part, sent)
  {
    hide Good, Genuine;
  }

  lemma SweptFromQueue(transport: T.SeededTransport, now: u32)
    requires transport.Valid()
    ensures var swept := T.Swept(transport.config, now, transport.config.bandwidth, T.Arranged(transport.queue));
      && (forall q :: q in swept.delivered ==> q in transport.queue)
      && (forall q :: q in swept.kept ==> q in transport.queue)
  {
    hide T.Swept, T.Arranged, T.TotalBytes, T.TooOld;
    T.ArrangedIsInOrder(transport.queue);
    T.SweepSelects(transport.config, now, transport.config.bandwidth, T.Arranged(transport.queue));
  }

  lemma DeliverNothing(s: Setup, net: Net)
    requires Deliverable(s, net, [])
    ensures DeliveredAll(s, net, []) == (net, None)
  {
    hide Good;
  }

  lemma DeliverFirst(s: Setup, net: Net, qs: seq<T.Scheduled>)
    requires Deliverable(s, net, qs) && qs != []
    ensures Genuine(net, qs[0]) && Deliverable(s, Landing(s, net, qs[0]).0, qs[1..])
    ensures var (after, error) := Landing(s, net, qs[0]);
      DeliveredAll(s, net, qs) == if error.Some? then (after, error) else DeliveredAll(s, after, qs[1..])
  {
    hide Good, Landing, Genuine;
    assert forall q :: q in qs[1..] ==> q in qs;
    SameWire(net, Landing(s, net, qs[0]).0, qs[1..]);
  }

  // ---- Generating and sending ----

  lemma GenerateIsSane(s: Setup, net: Net, p: PlayerId, queue: seq<T.Scheduled>, sent: nat)
    requires Sane(s, net, queue, sent) && |net.At(p).history| + 1 < HALF
    ensures Sane(s, GeneratedBy(s, net, p), queue, sent)
  {
    hide PeerIsGood, GoodLetter, Genuine, NumbersWithin;
    GenerateIsGood(s, p, net.At(p));
    SameWire(net, GeneratedBy(s, net, p), queue);
  }

  lemma LaterIsSane(s: Setup, net: Net, queue: seq<T.Scheduled>, sent: nat)
    requires Sane(s, net, queue, sent)
    ensures Sane(s, net, queue, sent + 1)
  {
    hide Good, Genuine;
  }

  /** Whatever survives of the queue, the copies just added carry the letter just sent. */
  lemma SendIsSane(s: Setup, plan: Plan, net: Net, p: PlayerId, tick: nat, before: seq<T.Scheduled>,
      after: seq<T.Scheduled>)
    requires Sane(s, net, before, tick + 1) && FiveBit(s) && 0 < plan.frames
    requires |net.At(p).history| == Min(tick + 1, plan.frames) && net.At(p).nextNumber == tick + 1
    requires var t := net.At(p).endpoint.session; |t.used| == |t.local|
    requires Encoded(PacketFrom(s, net, p)).Ok?
    requires forall q :: q in after ==> q in before || IsCopy(q, p, Encoded(PacketFrom(s, net, p)).value, tick)
    ensures Sane(s, SentBy(s, net, p), after, tick + 1)
  {
    hide PeerIsGood, GoodLetter, Genuine, NumbersWithin, Decoded, Encoded, MadePacket, FiveBit, WellSent;
    SentPacketEncodes(s, plan, net, tick, p);
    SentLetterIsGood(s, p, net.At(p));
    SendIsGood(s, p, net.At(p));
    SentSequence(s, net, p);
    SameWire(net, SentBy(s, net, p), before);
    forall q | q in after ensures Genuine(SentBy(s, net, p), q) && q.enqueuedAt < tick + 1 {
      if q !in before {
        CopyIsGenuine(s, net, p, tick, q);
      }
    }
  }

  lemma GoodPeer(s: Setup, net: Net, p: PlayerId, queue: seq<T.Scheduled>, sent: nat)
    requires Sane(s, net, queue, sent)
    ensures PeerIsGood(s, p, net.At(p)) && Good(s, net)
  {
    hide PeerIsGood, GoodLetter, Genuine;
  }

  lemma PacketEncodes(s: Setup, plan: Plan, net: Net, tick: nat, p: PlayerId, queue: seq<T.Scheduled>)
    requires Sane(s, net, queue, tick + 1) && FiveBit(s) && 0 < plan.frames
    requires |net.At(p).history| == Min(tick + 1, plan.frames) && net.At(p).nextNumber == tick + 1
    requires var t := net.At(p).endpoint.session; |t.used| == |t.local|
    ensures Encodable(PacketFrom(s, net, p))
  {
    hide PeerIsGood, Sane, FiveBit, Decoded, MadePacket, EncodeError;
    GoodPeer(s, net, p, queue, tick + 1);
    SentPacketEncodes(s, plan, net, tick, p);
  }

  lemma QueueIsSmall(s: Setup, net: Net, queue: seq<T.Scheduled>, sent: nat)
    requires Sane(s, net, queue, sent)
    ensures forall q :: q in queue ==> |q.bytes| <= LARGEST_PACKET
  {
    hide Good, Decoded;
  }

  lemma AmpleIsLossFree(c: T.Config, plan: Plan)
    ensures Ample(c, plan) ==> T.PercentsAreValid(c) && c.lossPercent == 0 && c.burstLossPercent == 0
  {
  }

  lemma DistinctlyQueued(transport: T.SeededTransport)
    requires transport.Valid()
    ensures T.DistinctOrdinals(transport.queue)
  {
    hide T.DistinctOrdinals, T.TotalBytes;
  }

  lemma CopiesAreAppended(c: T.Config, before: seq<T.Scheduled>, after: seq<T.Scheduled>, copies: nat, p: PlayerId,
      bytes: seq<u8>, now: u32, ordinal: nat)
    requires copies <= 2 && copies <= |after| && forall q :: q in after[..|after| - copies] ==> q in before
    requires copies > 0 ==> T.CopyOf(c, after[|after| - copies], EndpointOf(p), EndpointOf(Other(p)), bytes, now,
      ordinal, false)
    requires copies == 2 ==> T.CopyOf(c, after[|after| - 1], EndpointOf(p), EndpointOf(Other(p)), bytes, now,
      ordinal + 1, true)
    ensures forall q :: q in after ==> q in before || IsCopy(q, p, bytes, now)
  {
    forall q | q in after ensures q in before || IsCopy(q, p, bytes, now) {
      var i :| 0 <= i < |after| && after[i] == q;
      if i < |after| - copies {
        assert q == after[..|after| - copies][i];
      }
    }
  }

  ghost predicate IsCopy(q: T.Scheduled, p: PlayerId, bytes: seq<u8>, tick: nat) {
    q.to == EndpointOf(Other(p)) && q.bytes == bytes && q.enqueuedAt == tick
  }

  lemma SentSequence(s: Setup, net: Net, p: PlayerId)
    requires var t := net.At(p).endpoint.session; |t.used| == |t.local|
    ensures PacketFrom(s, net, p).sequence == Tag(net.At(p).nextNumber)
  {
  }

  lemma CopyIsGenuine(s: Setup, net: Net, p: PlayerId, tick: nat, q: T.Scheduled)
    requires net.At(p).nextNumber == tick + 1
    requires var t := net.At(p).endpoint.session; |t.used| == |t.local|
    requires var packet := PacketFrom(s, net, p);
      Encoded(packet).Ok? && Decoded(Encoded(packet).value) == Ok(packet) && |Encoded(packet).value| <= LARGEST_PACKET
    requires IsCopy(q, p, Encoded(PacketFrom(s, net, p)).value, tick)
    ensures Genuine(SentBy(s, net, p), q)
  {
    hide Decoded, Encoded, MadePacket;
  }

  lemma RoomAlone(c: T.Config, size: nat)
    requires size <= 2 * LARGEST_PACKET
    ensures Roomy(c) ==> T.PercentsAreValid(c) && c.policy.DropOldest? && !T.Exceeds(c, [], 2, size)
  {
  }

  /** An ample transport always has room for one more packet in two copies. */
  lemma RoomForTwo(plan: Plan, c: T.Config, queue: seq<T.Scheduled>, nextOrdinal: nat, tick: nat, extra: nat, size: nat)
    requires Ample(c, plan) && QueueOnTime(plan.delay, queue, nextOrdinal, tick, extra) && extra <= 2
      && size <= LARGEST_PACKET
    requires forall q :: q in queue ==> |q.bytes| <= LARGEST_PACKET
    ensures !T.Exceeds(c, queue, 2, 2 * size)
  {
    hide QueueOnTime, T.TotalBytes;
    QueueIsBounded(plan.delay, queue, nextOrdinal, tick, extra);
  }

  // ---- Advancing ----

  lemma GoodSession(s: Setup, p: PlayerId, peer: Peer, tick: nat)
    requires PeerIsGood(s, p, peer) && s.initial == InitialWorld()
      && peer.endpoint.session.Now() == tick < Replays.MAX_REPLAY_FRAMES
    ensures var t := peer.endpoint.session;
      && t.Valid() && t.HasRoom() && t.Accepts(ScriptedInput(s, tick, p)) && s.Base() == 0
      && PeerIsGood(s, p, peer.(endpoint := peer.endpoint.(session := t.Advanced(ScriptedInput(s, tick, p)))))
  {
    hide Sound, Honest, Timeline.Advanced;
    InitialWorldIsSound();
    AdvanceIsGood(s, p, peer);
  }

  lemma AdvanceIsSane(s: Setup, net: Net, p: PlayerId, queue: seq<T.Scheduled>, sent: nat, tick: nat)
    requires Sane(s, net, queue, sent) && s.initial == InitialWorld() && tick < Replays.MAX_REPLAY_FRAMES
    requires net.At(p).endpoint.session.Now() == tick
    ensures var t := net.At(p).endpoint.session;
      && t.Valid() && t.HasRoom() && t.Accepts(ScriptedInput(s, tick, p)) && s.Base() == 0
      && Sane(s, AdvancedBy(s, net, p), queue, sent)
  {
    hide PeerIsGood, GoodLetter, Genuine, NumbersWithin, Timeline.Valid, Timeline.HasRoom, Timeline.Advanced,
         InitialWorld;
    GoodSession(s, p, net.At(p), tick);
    SameWire(net, AdvancedBy(s, net, p), queue);
  }

  // ---- Between ticks ----

  /** The replay's direct simulation is the canonical fold, whatever the peers' variants. */
  lemma FoldStep(s: Setup, n: nat)
    requires s.initial == InitialWorld()
    ensures PairFold(s, Canonical, n + 1) == Next(PairFold(s, Canonical, n), s.script(n, A), s.script(n, B), Canonical)
  {
    hide Next;
    InitialFrame();
  }

  /** Histories, sequence counters and the direct simulation, after `ticks` ticks of generating and sending. */
  ghost predicate Generating(s: Setup, plan: Plan, net: Net, recorded: nat, state: World, ticks: nat) {
    && Counted(net, Min(ticks, plan.frames), Min(ticks, plan.frames + plan.tail) + 1)
    && recorded == Min(ticks, plan.frames) && state == PairFold(s, Canonical, recorded)
  }

  ghost predicate Simulating(plan: Plan, net: Net, ticks: nat) {
    net.a.endpoint.session.Now() == net.b.endpoint.session.Now() == Min(ticks, plan.frames)
  }

  lemma ClocksHold(plan: Plan, before: Net, after: Net, ticks: nat)
    requires SameSessions(before, after) && Simulating(plan, before, ticks)
    ensures Simulating(plan, after, ticks)
  {
  }

  lemma ThrivingTick(s: Setup, plan: Plan, c: T.Config, before: Live, tick: u32, halfway: Live, sent: Live,
      delivered: Live, after: Live)
    requires Ready(s, plan, before, tick) && Playable(s, plan) && Ample(c, plan) && tick < HALF
    requires Prepares(s, plan, c, before, tick, halfway, sent) && DeliversTo(s, c, sent, tick, delivered)
    ensures DeliversCleanly(s, c, sent, tick)
    ensures AdvancesTo(s, plan, delivered, tick, after) ==> Ready(s, plan, after, tick + 1)
  {
    hide Ready, Playable, Ample, SendsTo, Generated, DeliversTo, AdvancesTo, OnSchedule, AllSent;
    CleanDelivery(s, plan, c, before, tick, halfway, sent);
    OnTimeIsClean(s, plan, c, sent, tick);
    if AdvancesTo(s, plan, delivered, tick, after) {
      TickOnSchedule(s, plan, c, before, tick, halfway, sent, delivered, after);
    }
  }

  lemma OnTimeIsClean(s: Setup, plan: Plan, c: T.Config, live: Live, tick: u32)
    requires DeliversOnTime(s, plan, c, live, tick)
    ensures DeliversCleanly(s, c, live, tick)
  {
    hide T.Swept, T.Arranged, Deliverable, DeliveredAll, AllDelivered, Progressed;
  }

  ghost predicate Prepares(s: Setup, plan: Plan, c: T.Config, before: Live, tick: u32, halfway: Live, after: Live) {
    SendsTo(s, plan, c, Generated(s, plan, before, tick), tick, halfway, after)
  }

  ghost predicate SameSessions(before: Net, after: Net) {
    before.a.endpoint == after.a.endpoint && before.b.endpoint == after.b.endpoint
  }

  lemma ReadyQueue(s: Setup, plan: Plan, live: Live, tick: nat)
    requires Ready(s, plan, live, tick)
    ensures QueueOnTime(plan.delay, live.queue, live.nextOrdinal, tick, 0)
  {
    hide InStep, Good, WellSent, Accounted, Genuine, QueueOnTime;
  }

  ghost predicate SameClocks(before: Net, after: Net) {
    && after.a.history == before.a.history && after.b.history == before.b.history
    && after.a.nextNumber == before.a.nextNumber && after.b.nextNumber == before.b.nextNumber
    && after.a.endpoint.session.Now() == before.a.endpoint.session.Now()
    && after.b.endpoint.session.Now() == before.b.endpoint.session.Now()
  }

  lemma LandingKeepsClock(s: Setup, net: Net, q: T.Scheduled)
    requires Good(s, net) && Genuine(net, q)
    ensures SameClocks(net, Landing(s, net, q).0)
  {
    hide Good, Decoded, Processed, Timeline.Valid;
    var letter := LetterOf(q);
    LetterIsDeliverable(s, net, letter);
    DeliveredKeepsHistory(net.At(letter.to), letter, s.scenario);
    ProcessedKeepsClock(net.At(letter.to).endpoint, letter.packet, letter.number, s.scenario);
  }

  lemma ProcessedKeepsClock(e: Endpoint, packet: Packet, number: int, seed: u64)
    requires e.session.Valid()
    ensures Processed(e, packet, number, seed).0.session.Now() == e.session.Now()
  {
    hide Timeline.Valid, IngestedAll, ComparedAll, Timeline.Flushed;
    IngestedAllIsValid(e.session, packet.inputs);
    var t := IngestedAll(e.session, packet.inputs).0;
    FlushKeepsConfig(t);
  }

  lemma {:induction false} DeliveriesKeepClock(s: Setup, net: Net, qs: seq<T.Scheduled>)
    requires Deliverable(s, net, qs)
    ensures SameClocks(net, DeliveredAll(s, net, qs).0)
    decreases |qs|
  {
    hide Good, Genuine, Landing;
    if qs != [] {
      DeliverFirst(s, net, qs);
      LandingKeepsClock(s, net, qs[0]);
      DeliveriesKeepClock(s, Landing(s, net, qs[0]).0, qs[1..]);
    }
  }

  lemma AdvancingKeepsClock(s: Setup, net: Net, tick: nat)
    requires net.a.endpoint.session.Valid() && net.b.endpoint.session.Valid()
    requires Good(s, net) && s.initial == InitialWorld() && tick < Replays.MAX_REPLAY_FRAMES
    requires net.a.endpoint.session.Now() == net.b.endpoint.session.Now() == tick
    ensures var after := AdvancedBoth(s, net);
      && after.a.history == net.a.history && after.b.history == net.b.history
      && after.a.nextNumber == net.a.nextNumber && after.b.nextNumber == net.b.nextNumber
      && after.a.endpoint.session.Now() == after.b.endpoint.session.Now() == tick + 1
  {
    hide PeerIsGood, Timeline.Valid, Timeline.Advanced, InitialWorld, GoodLetter;
    GoodSession(s, A, net.a, tick);
    GoodSession(s, B, net.b, tick);
    AdvanceAppends(net.a.endpoint.session, ScriptedInput(s, tick, A));
    AdvanceAppends(net.b.endpoint.session, ScriptedInput(s, tick, B));
  }

  lemma SaneIsGood(s: Setup, net: Net, queue: seq<T.Scheduled>, sent: nat)
    requires Sane(s, net, queue, sent)
    ensures Good(s, net)
  {
    hide Genuine;
  }

  // ---- The end of a run ----

  datatype RunReport = RunReport(counters: Counters, confirmedFrame: u32, finalHashA: u64, finalHashB: u64,
    replayVerified: bool, desync: Option<Diagnostic>, success: bool)

  /** The hash of the state a peer is in. */
  ghost function PresentHash(peer: Peer): u64 {
    var t := peer.endpoint.session;
    if |t.used| == |t.local| then HashCanonical(t.State()) else 0
  }

  /** The diagnostic of the earlier boundary; A's when they are at the same one. */
  function Earlier(a: Option<Diagnostic>, b: Option<Diagnostic>): (r: Option<Diagnostic>)
    ensures r == a || r == b
    ensures r.None? <==> a.None? && b.None?
    ensures a.Some? && b.Some? ==>
        !FrameBefore(a.value.earliestFrame, r.value.earliestFrame)
        && !FrameBefore(b.value.earliestFrame, r.value.earliestFrame)
        && (a.value.earliestFrame == b.value.earliestFrame ==> r == a)
  {
    if a.None? then b
    else if b.None? || !FrameBefore(b.value.earliestFrame, a.value.earliestFrame) then a
    else b
  }

  /** Everything is summed over the two peers, except the depth, which is the greater one. */
  predicate AddsUp(a: Counters, b: Counters, r: Counters) {
    && r.rollbacks == a.rollbacks + b.rollbacks && r.resimulated == a.resimulated + b.resimulated
    && r.predicted == a.predicted + b.predicted && r.late == a.late + b.late
    && a.deepest <= r.deepest && b.deepest <= r.deepest && (r.deepest == a.deepest || r.deepest == b.deepest)
  }

  function Combined(a: Counters, b: Counters): (r: Counters)
    ensures AddsUp(a, b, r)
  {
    Counters(a.rollbacks + b.rollbacks, a.resimulated + b.resimulated,
      if a.deepest < b.deepest then b.deepest else a.deepest,
             a.predicted + b.predicted, a.late + b.late)
  }

  function ReportOf(frameCount: u32, a: SessionReport, b: SessionReport, expected: u64, verified: bool,
      desync: Option<Diagnostic>): RunReport {
    var confirmed := if FrameBefore(a.confirmedFrame, b.confirmedFrame) then a.confirmedFrame else b.confirmedFrame;
    RunReport(Combined(a.counters, b.counters), confirmed, a.finalHash, b.finalHash, verified, desync,
              confirmed == frameCount && a.finalHash == b.finalHash && a.finalHash == expected && verified
                && desync.None?)
  }

  /** With both boundaries at most the target, the least of the two is the target only when both are. */
  lemma SuccessMeansConfirmed(frameCount: u32, a: SessionReport, b: SessionReport, expected: u64,
      desync: Option<Diagnostic>)
    requires a.confirmedFrame <= frameCount && b.confirmedFrame <= frameCount < HALF
    ensures var r := ReportOf(frameCount, a, b, expected, true, desync);
      && r.confirmedFrame == Min(a.confirmedFrame, b.confirmedFrame)
      && (r.confirmedFrame == frameCount <==> a.confirmedFrame == b.confirmedFrame == frameCount)
      && (r.success <==> a.confirmedFrame == b.confirmedFrame == frameCount && a.finalHash == b.finalHash == expected
                         && desync.None?)
      && r.counters == Combined(a.counters, b.counters) && r.finalHashA == a.finalHash && r.finalHashB == b.finalHash
      && r.replayVerified && r.desync == desync
  {
    SmallMod(b.confirmedFrame - a.confirmedFrame);
  }

  lemma ReadyConverges(s: Setup, plan: Plan, live: Live, tick: nat)
    requires Ready(s, plan, live, tick) && plan.frames + plan.lag <= tick
    ensures Converged(s, plan, A, live.net.a) && Converged(s, plan, B, live.net.b)
  {
    hide InStep, Good, WellSent, Accounted, Genuine, Converged;
    PeerConverges(s, plan, A, live.net.a, tick, tick);
    PeerConverges(s, plan, B, live.net.b, tick, tick);
  }

  ghost function FlushedBy(net: Net, p: PlayerId): Net
    requires net.At(p).endpoint.session.Valid()
  {
    var peer := net.At(p);
    net.With(p, peer.(endpoint := peer.endpoint.(session := peer.endpoint.session.Flushed())))
  }

  ghost function FlushedBoth(net: Net): Net
    requires net.a.endpoint.session.Valid() && net.b.endpoint.session.Valid()
  {
    FlushedBy(FlushedBy(net, A), B)
  }

  lemma FlushIsSane(s: Setup, net: Net, p: PlayerId, queue: seq<T.Scheduled>, sent: nat)
    requires Sane(s, net, queue, sent)
    ensures net.At(p).endpoint.session.Valid()
    ensures Sane(s, FlushedBy(net, p), queue, sent)
      && FlushedBy(net, p).At(p).endpoint.session.Now() == net.At(p).endpoint.session.Now()
  {
    hide PeerIsGood, GoodLetter, Genuine, NumbersWithin, Timeline.Valid, Timeline.Flushed;
    FlushIsGood(s, p, net.At(p));
    FlushKeepsConfig(net.At(p).endpoint.session);
    SameWire(net, FlushedBy(net, p), queue);
  }

  ghost predicate AtTarget(s: Setup, p: PlayerId, peer: Peer, n: nat) {
    var t := peer.endpoint.session;
    && |t.used| == |t.local| && t.Base() == s.Base() && s.Base() <= t.confirmed <= t.Now() == s.Base() + n
    && RealDesync(s, p, peer.endpoint.diagnostic)
    && (t.confirmed == t.Now() ==> t.State() == PairFold(s, s.VariantOf(p), n))
  }

  /** A peer confirmed up to the present is in the state of its direct fold, and has recorded only a real desync. */
  lemma ConfirmedPresent(s: Setup, p: PlayerId, peer: Peer, n: nat)
    requires PeerIsGood(s, p, peer) && peer.endpoint.session.Now() == s.Base() + n
    ensures AtTarget(s, p, peer, n)
  {
    hide Timeline.Valid, Honest, Worlds, TrueWorld, PairFold, RealDesync;
    var t := peer.endpoint.session;
    SessionIsValid(s, p, peer);
    Boundaries(t);
    if t.confirmed == t.Now() {
      ConfirmedWorldIsTrue(t, TruthFor(s, p), t.Now());
      TrueWorldIsPairFold(s, p, t, n);
    }
  }

  lemma ConvergedIsIdle(s: Setup, plan: Plan, p: PlayerId, peer: Peer)
    requires Converged(s, plan, p, peer)
    ensures var t := peer.endpoint.session;
      && t.Valid() && t.confirmed == s.Base() + plan.frames && t.counters.deepest <= plan.lag && t.Flushed() == t
  {
    hide Timeline.Valid, PairFold, Worlds;
    FlushIsIdle(peer.endpoint.session);
  }

  /** Flushing a peer with nothing left to do changes nothing. */
  lemma FlushIsIdle(t: Timeline)
    requires t.Valid() && t.dirty.None? && t.confirmed == t.Now()
    ensures t.Flushed() == t
  {
    hide Sound;
  }

  /** Without loss every frame is heard with the packet of its own tick. */
  function LossFree(frames: nat, tail: nat, c: T.Config): Plan {
    Plan(frames, tail, T.LongestDelay(c), T.LongestDelay(c))
  }

  /** The windows, trackers, transport and recorder a run owns. */
  method NewParts(c: T.Config, seed: u64, frames: u32)
    returns (windowA: SequenceWindow, windowB: SequenceWindow, trackerA: DesyncTracker, trackerB: DesyncTracker,
             transport: T.SeededTransport, recorder: Recorder)
    requires 0 < frames <= Replays.MAX_REPLAY_FRAMES
    ensures fresh({windowA as object, windowB, trackerA, trackerB, transport, recorder})
    ensures windowA != windowB && trackerA != trackerB
    ensures windowA.Valid() && windowB.Valid() && transport.Valid() && recorder.Valid()
    ensures windowA.window == windowB.window == EMPTY && trackerA.diagnostic == trackerB.diagnostic == None
    ensures trackerA.scenarioSeed == trackerB.scenarioSeed == seed
    ensures transport.config == c && transport.queue == [] && transport.burstRemaining == transport.failedSends == 0
    ensures recorder.frameCount == frames && recorder.inputs == [] && recorder.state == InitialWorld()
  {
    hide SequenceWindow.Valid, Recorder.Valid, T.SeededTransport.Valid, InitialWorld;
    windowA := new SequenceWindow();
    windowB := new SequenceWindow();
    trackerA := new DesyncTracker(seed);
    trackerB := new DesyncTracker(seed);
    transport := new T.SeededTransport(c);
    recorder := new Recorder(frames);
  }

  class LiveScenario {
    const frameCount: u32
    const tail: u32
    const script: Script
    const scenarioSeed: u64
    const transportSeed: u64
    const peerA: RollbackSession
    const peerB: RollbackSession
    const windowA: SequenceWindow
    const windowB: SequenceWindow
    const trackerA: DesyncTracker
    const trackerB: DesyncTracker
    const transport: T.SeededTransport
    const recorder: Recorder
    var historyA: seq<InputFrame>
    var historyB: seq<InputFrame>
    var sequenceA: u32
    var sequenceB: u32
    var tick: u32
    var finished: bool
    var failure: Option<ErrorCode>
    var report: Option<RunReport>
    ghost const setup: Setup
    ghost var net: Net
    ghost const repr: set<object>

    ghost predicate Owned() {
      var a: object, b: object := peerA, peerB;
      var wa: object, wb: object := windowA, windowB;
      var ta: object, tb: object := trackerA, trackerB;
      var tr: object, re: object := transport, recorder;
      var ra, rb := peerA.storage.repr, peerB.storage.repr;
      && a in repr && b in repr && wa in repr && wb in repr && ta in repr && tb in repr && tr in repr && re in repr
      && ra <= repr && rb <= repr && this !in repr
      && a != b && wa != wb && ta != tb
      && ra !! rb
      && a !in ra && b !in ra && wa !in ra && wb !in ra && ta !in ra && tb !in ra && tr !in ra && re !in ra
      && a !in rb && b !in rb && wa !in rb && wb !in rb && ta !in rb && tb !in rb && tr !in rb && re !in rb
    }

    ghost predicate Configured() {
      && Owned()
      && setup == Setup(InitialWorld(), peerA.config.variant, peerB.config.variant, script, scenarioSeed)
      && peerA.config.local.A? && peerB.config.local.B?
      && trackerA.scenarioSeed == scenarioSeed && trackerB.scenarioSeed == scenarioSeed
      && FiveBit(setup)
      && 0 < frameCount <= Replays.MAX_REPLAY_FRAMES && frameCount + tail + 96 < HALF
      && recorder.frameCount == frameCount
    }

    ghost predicate Mirrors()
      reads this`net, this`historyA, this`historyB, this`sequenceA, this`sequenceB, repr
      requires Owned()
    {
      && net.a == Peer(Endpoint(peerA.timeline, windowA.window, trackerA.diagnostic), historyA, net.a.nextNumber)
      && net.b == Peer(Endpoint(peerB.timeline, windowB.window, trackerB.diagnostic), historyB, net.b.nextNumber)
      && sequenceA == Tag(net.a.nextNumber) && sequenceB == Tag(net.b.nextNumber)
    }

    ghost predicate Linked()
      reads this`net, this`historyA, this`historyB, this`sequenceA, this`sequenceB, repr
    {
      && Configured() && Mirrors()
      && peerA.Valid() && peerB.Valid() && windowA.Valid() && windowB.Valid() && transport.Valid() && recorder.Valid()
    }

    constructor (c: T.Config, seed: u64, wireSeed: u64, inputs: Script, frames: u32, tailTicks: u32,
        a: RollbackSession, b: RollbackSession)
      requires a.Valid() && b.Valid() && a != b && a.storage.repr !! b.storage.repr && a !in b.storage.repr
        && b !in a.storage.repr
      requires a.timeline == Start(a.config) && b.timeline == Start(b.config) && a.config.local.A? && b.config.local.B?
      requires a.config.initial == b.config.initial == InitialWorld()
      requires (forall frame, p :: inputs(frame, p) < 32) && 0 < frames <= Replays.MAX_REPLAY_FRAMES
        && frames + tailTicks + 96 < HALF
      ensures Linked() && transport.config == c && frameCount == frames && tail == tailTicks && peerA == a && peerB == b
      ensures tick == 0 && !finished && failure.None? && report.None? && transport.queue == []
        && transport.burstRemaining == transport.failedSends == 0
      ensures recorder.inputs == [] && recorder.state == InitialWorld()
      ensures setup == Setup(InitialWorld(), a.config.variant, b.config.variant, inputs, seed)
      ensures fresh(repr - ({a, b} + a.storage.repr + b.storage.repr))
      ensures net == Net(Peer(Endpoint(a.timeline, EMPTY, None), [], 1), Peer(Endpoint(b.timeline, EMPTY, None), [],
        1), {})
    {
      hide RollbackSession.Valid, SequenceWindow.Valid, Recorder.Valid, T.SeededTransport.Valid, InitialWorld, Sound,
           Start, Sessions.Caches;
      Mirrored(a);
      Mirrored(b);
      InitialWorldIsSound();
      frameCount, tail, script, scenarioSeed, transportSeed, peerA, peerB := frames, tailTicks, inputs, seed, wireSeed,
        a, b;
      var wa, wb, ta, tb, tr, re := NewParts(c, seed, frames);
      windowA, windowB, trackerA, trackerB, transport, recorder := wa, wb, ta, tb, tr, re;
      historyA, historyB, sequenceA, sequenceB, tick := [], [], 1, 1, 0;
      finished, failure, report := false, None, None;
      setup := Setup(InitialWorld(), a.config.variant, b.config.variant, inputs, seed);
      net := Net(Peer(Endpoint(a.timeline, EMPTY, None), [], 1), Peer(Endpoint(b.timeline, EMPTY, None), [], 1), {});
      repr := {a as object, b as object, wa as object, wb as object, ta as object, tb as object, tr as object,
        re as object}
              + a.storage.repr + b.storage.repr;
    }

    // ---- Receiving ----

    /** Process one delivery at its receiver. */
    method Receive(q: T.Scheduled) returns (r: Result<()>)
      requires Linked() && Good(setup, net) && Genuine(net, q) && Receivable(net, q)
      modifies this`net, repr
      ensures Linked() && net == Landing(setup, old(net), q).0
      ensures transport.queue == old(transport.queue) && transport.nextOrdinal == old(transport.nextOrdinal)
      ensures transport.burstRemaining == old(transport.burstRemaining)
      ensures transport.failedSends == old(transport.failedSends)
      ensures recorder.inputs == old(recorder.inputs) && recorder.state == old(recorder.state)
      ensures r.Ok? <==> Landing(setup, old(net), q).1.None?
    {
      hide RollbackSession.Valid, SequenceWindow.Valid, Recorder.Valid, T.SeededTransport.Valid, Processed, Decoded,
           Good, Timeline.Valid;
      assert Genuine(net, q);
      LetterIsDeliverable(setup, net, LetterOf(q));
      if q.to.A? {
        r := ProcessDelivery(q.bytes, peerA, windowA, trackerA, q.enqueuedAt + 1);
      } else {
        r := ProcessDelivery(q.bytes, peerB, windowB, trackerB, q.enqueuedAt + 1);
      }
      net := DeliveredOne(setup, net, LetterOf(q));
    }

    method ReceiveNext(q: T.Scheduled, ghost rest: seq<T.Scheduled>,
        ghost kept: seq<T.Scheduled>) returns (r: Result<()>)
      requires Linked() && rest != [] && q == rest[0] && Deliverable(setup, net, rest) && tick < HALF - 1
      requires Sane(setup, net, rest, tick + 1) && Sane(setup, net, kept, tick + 1)
      modifies this`net, repr
      ensures Linked() && Sane(setup, net, rest[1..], tick + 1) && Sane(setup, net, kept, tick + 1)
      ensures transport.queue == old(transport.queue) && transport.nextOrdinal == old(transport.nextOrdinal)
      ensures transport.burstRemaining == old(transport.burstRemaining)
      ensures transport.failedSends == old(transport.failedSends)
      ensures recorder.inputs == old(recorder.inputs) && recorder.state == old(recorder.state)
      ensures r.Ok? ==> Deliverable(setup, net, rest[1..])
                        && DeliveredAll(setup, old(net), rest) == DeliveredAll(setup, net, rest[1..])
      ensures r.Err? ==> DeliveredAll(setup, old(net), rest).0 == net && DeliveredAll(setup, old(net), rest).1.Some?
    {
      hide RollbackSession.Valid, SequenceWindow.Valid, Recorder.Valid, T.SeededTransport.Valid, Sane, Genuine,
           Landing, DeliveredAll, Receivable, Good;
      DeliverFirst(setup, net, rest);
      SaneIsReceivable(setup, net, rest, tick + 1, q);
      SentBefore(setup, net, rest, tick + 1, q);
      LandingIsSane(setup, net, rest, tick + 1, q);
      LandingIsSane(setup, net, kept, tick + 1, q);
      SubQueueIsSane(setup, Landing(setup, net, q).0, rest, tick + 1, rest[1..]);
      r := Receive(q);
    }

    /** Process deliveries in order, stopping at the first error. */
    method ReceiveAll(deliveries: seq<T.Scheduled>, ghost kept: seq<T.Scheduled>) returns (r: Result<()>)
      requires Linked() && Deliverable(setup, net, deliveries) && tick < HALF - 1
      requires Sane(setup, net, deliveries, tick + 1) && Sane(setup, net, kept, tick + 1)
      modifies this`net, repr
      ensures Linked() && Sane(setup, net, kept, tick + 1)
      ensures transport.queue == old(transport.queue) && transport.nextOrdinal == old(transport.nextOrdinal)
        && transport.burstRemaining == old(transport.burstRemaining)
        && transport.failedSends == old(transport.failedSends)
      ensures recorder.inputs == old(recorder.inputs) && recorder.state == old(recorder.state)
      ensures net == DeliveredAll(setup, old(net), deliveries).0
        && (r.Ok? <==> DeliveredAll(setup, old(net), deliveries).1.None?)
    {
      hide RollbackSession.Valid, SequenceWindow.Valid, Recorder.Valid, T.SeededTransport.Valid, Sane, Genuine,
           Landing, DeliveredAll, Receivable, Good, Deliverable, Decoded;
      for i := 0 to |deliveries|
        invariant Linked() && transport.queue == old(transport.queue)
        invariant transport.nextOrdinal == old(transport.nextOrdinal)
        invariant transport.burstRemaining == old(transport.burstRemaining)
        invariant transport.failedSends == old(transport.failedSends)
        invariant recorder.inputs == old(recorder.inputs) && recorder.state == old(recorder.state)
        invariant Sane(setup, net, kept, tick + 1) && Sane(setup, net, deliveries[i..], tick + 1)
        invariant Deliverable(setup, net, deliveries[i..])
        invariant DeliveredAll(setup, old(net), deliveries) == DeliveredAll(setup, net, deliveries[i..])
        modifies this`net, repr
      {
        ghost var rest := deliveries[i..];
        assert rest[0] == deliveries[i] && rest[1..] == deliveries[i + 1..];
        r := ReceiveNext(deliveries[i], rest, kept);
        if r.Err? {
          return;
        }
      }
      assert deliveries[|deliveries|..] == [];
      DeliverNothing(setup, net);
      r := Ok(());
    }

    /** `process_tick`: deliver what the transport has due, in its order, stopping at the first error. */
    method ProcessTick() returns (r: Result<()>)
      requires Linked() && Sane(setup, net, transport.queue, tick + 1) && tick < HALF - 1
      modifies this`net, repr
      ensures Linked() && Sane(setup, net, transport.queue, tick + 1)
      ensures recorder.inputs == old(recorder.inputs) && recorder.state == old(recorder.state)
      ensures transport.nextOrdinal == old(transport.nextOrdinal)
        && transport.burstRemaining == old(transport.burstRemaining)
        && transport.failedSends == old(transport.failedSends)
      ensures var swept := T.Swept(transport.config, tick, transport.config.bandwidth,
        T.Arranged(old(transport.queue)));
        && transport.queue == swept.kept && Deliverable(setup, old(net), swept.delivered)
        && net == DeliveredAll(setup, old(net), swept.delivered).0
        && (r.Ok? <==> DeliveredAll(setup, old(net), swept.delivered).1.None?)
    {
      hide RollbackSession.Valid, SequenceWindow.Valid, Recorder.Valid, T.SeededTransport.Valid, Sane, Genuine,
           Landing, DeliveredAll, T.Swept, T.Arranged, Receivable, Good, Deliverable, Decoded;
      ghost var c, queue := transport.config, transport.queue;
      ghost var swept := T.Swept(c, tick, c.bandwidth, T.Arranged(queue));
      SweptFromQueue(transport, tick);
      SubQueueIsSane(setup, net, queue, tick + 1, swept.delivered);
      SubQueueIsSane(setup, net, queue, tick + 1, swept.kept);
      SaneIsDeliverable(setup, net, swept.delivered, tick + 1);
      var deliveries := transport.Deliver(tick);
      r := ReceiveAll(deliveries, swept.kept);
    }

    // ---- Generating and sending ----

    ghost function View(): Live
      reads this`net, transport
    {
      Live(net, transport.queue, transport.nextOrdinal)
    }

    ghost function Schedule(): Plan { LossFree(frameCount, tail, transport.config) }

    predicate FiveBits(localButtons: Option<u8>) { localButtons.Some? ==> localButtons.value < 32 }

    method GenerateInputs(localButtons: Option<u8>)
      requires Linked() && Sane(setup, net, transport.queue, tick) && tick < frameCount && |recorder.inputs| == tick
      requires FiveBits(localButtons) && Scripted(localButtons)
      requires Counted(net, tick, tick + 1)
      modifies this`historyA, this`historyB, this`net, recorder
      ensures Linked() && Sane(setup, net, transport.queue, tick) && |recorder.inputs| == tick + 1
      ensures net == GeneratedBy(setup, GeneratedBy(setup, old(net), A), B)
      ensures recorder.state == Next(old(recorder.state), script(tick, A), script(tick, B), Canonical)
    {
      hide RollbackSession.Valid, SequenceWindow.Valid, Recorder.Valid, T.SeededTransport.Valid, Sane, Next;
      var inputA := InputFrame(tick, A, tick, if localButtons.Some? then localButtons.value else script(tick, A));
      var inputB := InputFrame(tick, B, tick, script(tick, B));
      InitialFrame();
      assert ScriptedInput(setup, tick, A) == inputA && ScriptedInput(setup, tick, B) == inputB;
      GenerateIsSane(setup, net, A, transport.queue, tick);
      GenerateIsSane(setup, GeneratedBy(setup, net, A), B, transport.queue, tick);
      historyA := historyA + [inputA];
      historyB := historyB + [inputB];
      recorder.Record(InputPair(inputA, inputB));
      net := GeneratedBy(setup, GeneratedBy(setup, net, A), B);
    }

    /** No loss, room for everything, and no burst under way. */
    ghost predicate Lossless()
      reads transport
    {
      Ample(transport.config, Schedule()) && Schedule().delay < WINDOW && transport.burstRemaining == 0
    }

    /** Hand bytes to the transport, which may lose or refuse them. */
    method Transmit(p: PlayerId, bytes: seq<u8>, ghost extra: nat) returns (r: Result<()>)
      requires transport.Valid() && |bytes| <= LARGEST_PACKET
      modifies transport
      ensures transport.Valid()
      ensures transport.failedSends == old(transport.failedSends) + if r.Err? then 1 else 0
      ensures r.Err? ==> !Roomy(transport.config) && r.error == Refusal(transport.config)
      ensures forall q :: q in transport.queue ==> q in old(transport.queue) || IsCopy(q, p, bytes, tick)
      ensures old(Lossless()) && extra <= 2 && old(Bounded(extra)) ==>
          r.Ok? && Lossless()
          && Appended(transport.config, old(transport.queue), old(transport.nextOrdinal), p, bytes, tick,
                      transport.queue, transport.nextOrdinal)
    {
      hide T.SeededTransport.Valid, QueueOnTime, Ample, T.CopyOf, T.Exceeds, T.DistinctOrdinals, T.Evicted, T.IsLost,
           T.LossDraws, T.BurstGoesOn, T.Refused, T.Doubled, T.CopiesDelayed, T.CopiesDraws, T.Cost;
      ghost var queue, lossless := transport.queue, Lossless() && extra <= 2 && Bounded(extra);
      if lossless {
        RoomForTwo(Schedule(), transport.config, queue, transport.nextOrdinal, tick, extra, |bytes|);
      }
      AmpleIsLossFree(transport.config, Schedule());
      DistinctlyQueued(transport);
      ghost var copies;
      r, copies := transport.Send(EndpointOf(p), EndpointOf(Other(p)), bytes, tick);
      RoomAlone(transport.config, 2 * |bytes|);
      if copies > 0 {
        T.ExtendedKeeps(transport.config, queue, transport.queue, old(transport.nextOrdinal), EndpointOf(p),
          EndpointOf(Other(p)), bytes, tick, copies);
      }
      CopiesAreAppended(transport.config, queue, transport.queue, copies, p, bytes, tick, old(transport.nextOrdinal));
    }

    /** No more copies queued than a schedule allows, and none too large. */
    ghost predicate Bounded(extra: nat)
      reads this`tick, transport
    {
      && QueueOnTime(Schedule().delay, transport.queue, transport.nextOrdinal, tick, extra)
      && forall q :: q in transport.queue ==> |q.bytes| <= LARGEST_PACKET
    }

    /** `send_packet`: a packet made from this run always encodes. */
    method EncodeAndTransmit(p: PlayerId, packet: Packet, ghost extra: nat) returns (r: Result<()>)
      requires Linked() && Encodable(packet)
      modifies transport
      ensures Linked() && Encoded(packet).Ok?
      ensures transport.failedSends == old(transport.failedSends) + if r.Err? then 1 else 0
      ensures r.Err? ==> !Roomy(transport.config) && r.error == Refusal(transport.config)
      ensures forall q :: q in transport.queue ==>
          q in old(transport.queue) || IsCopy(q, p, Encoded(packet).value, tick)
      ensures old(Lossless()) && extra <= 2 && old(Bounded(extra)) ==>
          r.Ok? && Lossless()
          && Appended(transport.config, old(transport.queue), old(transport.nextOrdinal), p, Encoded(packet).value,
               tick,
                      transport.queue, transport.nextOrdinal)
    {
      hide RollbackSession.Valid, SequenceWindow.Valid, Recorder.Valid, T.SeededTransport.Valid, Encoded, EncodeError,
           Lossless, Bounded, Appended, IsCopy;
      EncodingIsSmall(packet);
      var bytes := EncodePacket(packet);
      if bytes.Err? {
        assert false;
      }
      r := Transmit(p, bytes.value, extra);
    }

    method SendPacket(p: PlayerId, packet: Packet, ghost extra: nat) returns (r: Result<()>)
      requires Linked() && Sane(setup, net, transport.queue, tick + 1) && tick < frameCount + tail
      requires |net.At(p).history| == Min(tick + 1, frameCount) && net.At(p).nextNumber == tick + 1
      requires var t := net.At(p).endpoint.session; |t.used| == |t.local|
      requires packet == PacketFrom(setup, net, p)
      modifies transport, this`net, this`sequenceA, this`sequenceB
      ensures Linked() && Sane(setup, net, transport.queue, tick + 1) && net == SentBy(setup, old(net), p)
      ensures transport.failedSends == old(transport.failedSends) + if r.Err? then 1 else 0
      ensures r.Err? ==> !Roomy(transport.config) && r.error == Refusal(transport.config)
      ensures old(Lossless()) && extra <= 2 && old(Bounded(extra)) ==>
          r.Ok? && Lossless() && EnqueuedBy(setup, transport.config, old(View()), p, tick, View())
    {
      hide RollbackSession.Valid, SequenceWindow.Valid, Recorder.Valid, T.SeededTransport.Valid, Sane, Good, Encoded,
           EncodeError, MadePacket, Lossless, Bounded, Appended, IsCopy, Tag;
      ghost var queue := transport.queue;
      PacketEncodes(setup, Schedule(), net, tick, p, queue);
      r := EncodeAndTransmit(p, packet, extra);
      SendIsSane(setup, Schedule(), net, p, tick, queue, transport.queue);
      NextTag(tick + 1);
      net := SentBy(setup, net, p);
      if p.A? {
        sequenceA := NextFrame(sequenceA);
      } else {
        sequenceB := NextFrame(sequenceB);
      }
    }

    /** The tick still sends, and its inputs have been generated. */
    ghost predicate Sending()
      reads this`net, this`tick
    {
      tick < frameCount + tail && Counted(net, Min(tick + 1, frameCount), tick + 1)
    }

    method MakePackets() returns (packetA: Packet, packetB: Packet)
      requires Linked()
      ensures var a, b := net.a.endpoint.session, net.b.endpoint.session;
        |a.used| == |a.local| && |b.used| == |b.local|
      ensures packetA == PacketFrom(setup, net, A) && packetB == PacketFrom(setup, net, B)
    {
      hide RollbackSession.Valid, SequenceWindow.Valid, Recorder.Valid, T.SeededTransport.Valid, MadePacket;
      Mirrored(peerA);
      Mirrored(peerB);
      packetA := MakePacket(peerA, historyA, scenarioSeed, sequenceA);
      packetB := MakePacket(peerB, historyB, scenarioSeed, sequenceB);
    }

    /** Both packets of a tick are made before either is sent; A's error is reported first. */
    method SendPackets() returns (r: Result<()>, ghost halfway: Live)
      requires Linked() && Sane(setup, net, transport.queue, tick + 1) && Sending()
      modifies transport, this`net, this`sequenceA, this`sequenceB
      ensures Linked() && Sane(setup, net, transport.queue, tick + 1) && BothSent(setup, old(net), net)
      ensures r.Ok? ==> transport.failedSends == old(transport.failedSends)
      ensures r.Err? ==> !Roomy(transport.config) && r.error == Refusal(transport.config)
      ensures r.Err? ==> transport.failedSends > old(transport.failedSends)
      ensures old(Lossless() && Bounded(0)) ==>
          r.Ok? && Lossless() && EnqueuedInTurn(setup, transport.config, old(View()), tick, halfway, View())
    {
      hide LiveScenario.Linked, Sane, MadePacket, Lossless, Bounded, EnqueuedBy, QueueOnTime;
      ghost var before, lossless := View(), Lossless() && Bounded(0);
      if lossless {
        BoundedQueue(0);
      }
      var packetA, packetB := MakePackets();
      r := SendPacket(A, packetA, 0);
      halfway := View();
      if lossless {
        StillBounded(before, A, 0);
      }
      var sentB := SendPacket(B, packetB, 2);
      if r.Ok? {
        r := sentB;
      }
    }

    lemma StillBounded(before: Live, p: PlayerId, extra: nat)
      requires Sane(setup, net, transport.queue, tick + 1)
        && EnqueuedBy(setup, transport.config, before, p, tick, View())
      requires QueueOnTime(Schedule().delay, before.queue, before.nextOrdinal, tick, extra)
      ensures Bounded(extra + 2)
    {
      hide Sane, EnqueuedBy, QueueOnTime;
      CopiesOnTime(setup, Schedule(), transport.config, before, p, tick, extra, View());
      QueueIsSmall(setup, net, transport.queue, tick + 1);
    }

    // ---- Advancing ----

    method AdvancePeer(session: RollbackSession, p: PlayerId) returns (r: Result<AdvanceResult>)
      requires Linked() && Sane(setup, net, transport.queue, tick + 1) && tick < frameCount
      requires session == (if p.A? then peerA else peerB) && net.At(p).endpoint.session.Now() == tick
      modifies this`net, session, session.storage.repr
      ensures Linked() && Sane(setup, net, transport.queue, tick + 1) && r.Ok?
      ensures old(net).At(p).endpoint.session.Valid() && net == AdvancedBy(setup, old(net), p)
    {
      hide RollbackSession.Valid, SequenceWindow.Valid, Recorder.Valid, T.SeededTransport.Valid, Sane, Timeline.Valid,
           Timeline.Advanced, Timeline.HasRoom, HashCanonical, Timeline.State, Tag;
      AdvanceIsSane(setup, net, p, transport.queue, tick + 1, tick);
      ghost var input := ScriptedInput(setup, tick, p);
      SmallTag(tick);
      r := session.Advance(InputFrame(tick, p, tick, script(tick, p)));
      if r.Err? {
        assert false;
      }
      net := AdvancedBy(setup, net, p);
    }

    method AdvancePeers()
      requires Linked() && Sane(setup, net, transport.queue, tick + 1) && tick < frameCount
      requires net.a.endpoint.session.Now() == net.b.endpoint.session.Now() == tick
      modifies this`net, peerA, peerA.storage.repr, peerB, peerB.storage.repr
      ensures Linked() && Sane(setup, net, transport.queue, tick + 1)
      ensures old(net.a.endpoint.session).Valid() && old(net.b.endpoint.session).Valid()
      ensures net == AdvancedBoth(setup, old(net))
    {
      hide RollbackSession.Valid, SequenceWindow.Valid, Recorder.Valid, T.SeededTransport.Valid, Sane, Timeline.Valid,
           Timeline.Advanced;
      var advancedA := AdvancePeer(peerA, A);
      var advancedB := AdvancePeer(peerB, B);
    }

    // ---- step_once ----

    /** Between ticks: every counter is where this tick's number says. */
    ghost predicate InPhase()
      reads this`tick, this`net, this`historyA, this`historyB, this`sequenceA, this`sequenceB, repr
    {
      && Linked() && Sane(setup, net, transport.queue, tick) && tick <= LastTick()
      && Generating(setup, Schedule(), net, |recorder.inputs|, recorder.state, tick)
      && Simulating(Schedule(), net, tick)
    }

    /** A loss-free run on schedule. */
    ghost predicate Thriving()
      reads this`net, this`tick, transport
    {
      Lossless() && Ready(setup, Schedule(), View(), tick)
    }

    ghost function LastTick(): nat { frameCount + tail + 32 }

    /** Everything a tick does before its deliveries. */
    method PrepareTick(localButtons: Option<u8>) returns (r: Result<()>, ghost halfway: Live)
      requires InPhase() && tick < LastTick() && FiveBits(localButtons) && Scripted(localButtons)
      modifies this`historyA, this`historyB, this`net, this`sequenceA, this`sequenceB, recorder, transport
      ensures Linked() && Sane(setup, net, transport.queue, tick + 1) && SameSessions(old(net), net)
      ensures SendsOut(setup, Schedule(), Played(setup, Schedule(), old(net), tick), tick, net)
      ensures r.Ok? ==> transport.failedSends == old(transport.failedSends)
      ensures r.Err? ==> !Roomy(transport.config) && r.error == Refusal(transport.config)
      ensures r.Err? ==> transport.failedSends > old(transport.failedSends)
      ensures Generating(setup, Schedule(), net, |recorder.inputs|, recorder.state, tick + 1)
      ensures old(Thriving()) ==>
          r.Ok? && Lossless() && Prepares(setup, Schedule(), transport.config, old(View()), tick, halfway, View())
    {
      hide RollbackSession.Valid, SequenceWindow.Valid, Recorder.Valid, T.SeededTransport.Valid, Sane, Lossless,
           EnqueuedBy, Ready, Next, MadePacket, Bounded, PairFold, ScriptedInput;
      ghost var before, lossless := View(), Thriving();
      r := Ok(());
      if tick < frameCount {
        FoldStep(setup, tick);
        GenerateInputs(localButtons);
      }
      LaterIsSane(setup, net, transport.queue, tick);
      if lossless {
        QueueIsSmall(setup, net, transport.queue, tick + 1);
        ReadyQueue(setup, Schedule(), before, tick);
        assert Bounded(0) by { BoundedBy(0); }
      }
      halfway := View();
      if tick < frameCount + tail {
        r, halfway := SendPackets();
      }
    }

    lemma BoundedQueue(extra: nat)
      requires Bounded(extra)
      ensures QueueOnTime(Schedule().delay, transport.queue, transport.nextOrdinal, tick, extra)
    {
    }

    lemma BoundedBy(extra: nat)
      requires QueueOnTime(Schedule().delay, transport.queue, transport.nextOrdinal, tick, extra)
      requires forall q :: q in transport.queue ==> |q.bytes| <= LARGEST_PACKET
      ensures Bounded(extra)
    {
    }

    /** Both peers simulate the tick's frame, if there is one. */
    method SimulateTick()
      requires Linked() && Sane(setup, net, transport.queue, tick + 1) && Simulating(Schedule(), net, tick)
      requires Generating(setup, Schedule(), net, |recorder.inputs|, recorder.state, tick + 1)
      modifies this`net, peerA, peerA.storage.repr, peerB, peerB.storage.repr
      ensures Linked() && Sane(setup, net, transport.queue, tick + 1) && Simulating(Schedule(), net, tick + 1)
      ensures Generating(setup, Schedule(), net, |recorder.inputs|, recorder.state, tick + 1)
      ensures AdvancesTo(setup, Schedule(), old(View()), tick, View())
    {
      hide RollbackSession.Valid, SequenceWindow.Valid, Recorder.Valid, T.SeededTransport.Valid, Sane, PairFold,
           Timeline.Valid, InitialWorld, AdvancedBy;
      if tick < frameCount {
        SaneIsGood(setup, net, transport.queue, tick + 1);
        SessionIsValid(setup, A, net.a);
        SessionIsValid(setup, B, net.b);
        AdvancingKeepsClock(setup, net, tick);
        AdvancePeers();
      }
    }

    /** The deliveries of a tick, and the frame it simulates. */
    method FinishTick() returns (r: Result<()>, ghost delivered: Live)
      requires Linked() && Sane(setup, net, transport.queue, tick + 1) && tick < LastTick()
        && Simulating(Schedule(), net, tick)
      requires Generating(setup, Schedule(), net, |recorder.inputs|, recorder.state, tick + 1)
      modifies this`net, repr
      ensures Linked() && Sane(setup, net, transport.queue, tick + 1)
        && transport.burstRemaining == old(transport.burstRemaining)
        && transport.failedSends == old(transport.failedSends)
      ensures DeliversTo(setup, transport.config, old(View()), tick, delivered)
      ensures r.Ok? <==> DeliversCleanly(setup, transport.config, old(View()), tick)
      ensures r.Ok? ==> AdvancesTo(setup, Schedule(), delivered, tick, View()) && Simulating(Schedule(), net, tick + 1)
                        && Generating(setup, Schedule(), net, |recorder.inputs|, recorder.state, tick + 1)
    {
      hide RollbackSession.Valid, SequenceWindow.Valid, Recorder.Valid, T.SeededTransport.Valid, Sane, PairFold,
           Timeline.Valid, InitialWorld, DeliveredAll, Deliverable, T.Swept, T.Arranged, AdvancesTo;
      ghost var sent := View();
      r := ProcessTick();
      DeliveriesKeepClock(setup, sent.net, T.Swept(transport.config, tick, transport.config.bandwidth,
        T.Arranged(sent.queue)).delivered);
      delivered := View();
      if r.Ok? {
        SimulateTick();
      }
    }

    /**
     * One tick of the run, without the finalization after the last one. Whatever the transport loses, it is a tick over
     * a lossy network, and only a refused packet or a failing arrival stops it.
     */
    method RunTick(localButtons: Option<u8>) returns (r: Result<()>, ghost o: Outcome)
      requires InPhase() && tick < LastTick() && FiveBits(localButtons) && Scripted(localButtons)
      modifies this, repr
      ensures Linked() && Good(setup, net) && finished == old(finished) && failure == old(failure)
      ensures Became(setup, Schedule(), old(net), old(tick), o) && (r.Ok? <==> o.Ran?)
      ensures o.Refused? ==> r.error == Refusal(transport.config)
      ensures r.Ok? ==> InPhase() && tick == old(tick) + 1 && net == o.after
      ensures Refuses(o, old(transport.failedSends))
      ensures old(Thriving()) ==> r.Ok? && Thriving()
    {
      hide RollbackSession.Valid, SequenceWindow.Valid, Recorder.Valid, T.SeededTransport.Valid, Sane, Ready, Good,
           Prepares, DeliversTo, DeliversCleanly, AdvancesTo, Generating, Simulating, Ample, SendsOut, Played,
           ArrivesCleanly, LossyTick, FailingTick, Arrived, Roomy, Refusal;
      ghost var before, thriving := View(), Thriving();
      ghost var halfway;
      r, halfway := PrepareTick(localButtons);
      SaneIsGood(setup, net, transport.queue, tick + 1);
      o := Refused;
      if r.Err? {
        return;
      }
      ghost var sent := View();
      ClocksHold(Schedule(), before.net, net, tick);
      ghost var delivered;
      r, delivered := FinishTick();
      SaneIsGood(setup, net, transport.queue, tick + 1);
      LiveTickIsLossy(setup, Schedule(), transport.config, before.net, tick, sent, delivered);
      ghost var m := Arrived(setup, transport.config, sent, tick, delivered);
      o := if r.Ok? then Ran(m, net) else Failed(m);
      if thriving {
        PlayableRun(this);
        ThrivingTick(setup, Schedule(), transport.config, before, tick, halfway, sent, delivered, View());
      }
      if r.Ok? {
        tick := tick + 1;
      }
    }

    /** Both peers have been flushed since `last`. */
    ghost predicate Flushes(last: Net)
      reads this`net
    {
      last.a.endpoint.session.Valid() && last.b.endpoint.session.Valid() && net == FlushedBoth(last)
    }

    method FlushPeer(session: RollbackSession, p: PlayerId)
      requires Linked() && Sane(setup, net, transport.queue, tick) && session == if p.A? then peerA else peerB
      modifies this`net, session, session.storage.repr
      ensures Linked() && Sane(setup, net, transport.queue, tick)
      ensures old(net).At(p).endpoint.session.Valid() && net == FlushedBy(old(net), p)
      ensures net.At(Other(p)) == old(net).At(Other(p))
      ensures net.At(p).endpoint.session.Now() == old(net).At(p).endpoint.session.Now()
    {
      hide RollbackSession.Valid, SequenceWindow.Valid, Recorder.Valid, T.SeededTransport.Valid, Sane, Timeline.Valid,
           Timeline.Flushed;
      FlushIsSane(setup, net, p, transport.queue, tick);
      var correction := session.FlushCorrections();
      if correction.Err? {
        assert false;
      }
      net := FlushedBy(net, p);
    }

    method FlushPeers()
      requires Linked() && Sane(setup, net, transport.queue, tick)
      requires net.a.endpoint.session.Now() == net.b.endpoint.session.Now() == frameCount
      modifies this`net, peerA, peerA.storage.repr, peerB, peerB.storage.repr
      ensures Flushes(old(net)) && AtTarget(setup, A, net.a, frameCount) && AtTarget(setup, B, net.b, frameCount)
      ensures Linked() && Sane(setup, net, transport.queue, tick) && Good(setup, net)
    {
      hide RollbackSession.Valid, SequenceWindow.Valid, Recorder.Valid, T.SeededTransport.Valid, Sane, Timeline.Valid,
           FlushedBy, PairFold, Good, PeerIsGood, InitialWorld, RealDesync;
      InitialFrame();
      FlushPeer(peerA, A);
      FlushPeer(peerB, B);
      SaneIsGood(setup, net, transport.queue, tick);
      GoodPeer(setup, net, A, transport.queue, tick);
      GoodPeer(setup, net, B, transport.queue, tick);
      ConfirmedPresent(setup, A, net.a, frameCount);
      ConfirmedPresent(setup, B, net.b, frameCount);
    }

    ghost function FoldHash(variant: Variant): u64 { HashCanonical(PairFold(setup, variant, frameCount)) }

    /**
     * What every report says: the replay verifies; success means the direct simulation's final hash at both peers and
     * no desync; a reported desync is a boundary at which the two peers' simulations really differ.
     */
    ghost predicate Judged()
      reads this`report
    {
      && report.Some? && report.value.replayVerified
      && (report.value.success ==>
            && report.value.desync.None? && report.value.confirmedFrame == frameCount
            && report.value.finalHashA == report.value.finalHashB == FoldHash(Canonical))
      && (RealDesync(setup, A, report.value.desync) || RealDesync(setup, B, report.value.desync))
    }

    /** What the report and the answer `r` say about two peers at the target. */
    ghost predicate Verdict(r: Result<bool>)
      reads this`report, this`net
    {
      var confirmed := net.a.endpoint.session.confirmed == net.b.endpoint.session.confirmed == frameCount;
      && Judged() && report.value.desync == Earlier(net.a.endpoint.diagnostic, net.b.endpoint.diagnostic)
      && AddsUp(net.a.endpoint.session.counters, net.b.endpoint.session.counters, report.value.counters)
      && report.value.confirmedFrame == Min(net.a.endpoint.session.confirmed, net.b.endpoint.session.confirmed)
      && (report.value.confirmedFrame == frameCount <==> confirmed)
      && report.value.finalHashA == PresentHash(net.a) && report.value.finalHashB == PresentHash(net.b)
      && (confirmed ==>
            report.value.finalHashA == FoldHash(setup.variantA) && report.value.finalHashB == FoldHash(setup.variantB))
      && (report.value.success <==>
            && confirmed && FoldHash(setup.variantA) == FoldHash(setup.variantB) == FoldHash(Canonical)
            && report.value.desync.None?)
      && (r.Ok? <==> report.value.desync.Some? || report.value.success)
      && (if r.Ok? then r.value
          else r.error == if report.value.confirmedFrame != frameCount then Timeout else ReplayMismatch)
    }

    /** Verify the recorded replay, compare the peers with it, and answer. */
    method Judge() returns (r: Result<bool>)
      requires Linked() && AtTarget(setup, A, net.a, frameCount) && AtTarget(setup, B, net.b, frameCount)
      requires |recorder.inputs| == frameCount && recorder.state == PairFold(setup, Canonical, frameCount)
      modifies this`report
      ensures Linked() && Verdict(r)
    {
      hide RollbackSession.Valid, SequenceWindow.Valid, Recorder.Valid, T.SeededTransport.Valid, Timeline.Valid,
           PairFold, HashCanonical, InitialWorld, Replays.Holds, Tag, ReportOf, FrameBefore, Combined, RealDesync,
           Earlier;
      InitialFrame();
      var reportA := peerA.Report();
      var reportB := peerB.Report();
      recorder.CompleteRecordingHolds(scenarioSeed, transportSeed);
      RecordedHash(recorder);
      var verified := Replays.VerifyReplay(recorder.Recorded(scenarioSeed, transportSeed));
      SmallTag(net.a.endpoint.session.confirmed);
      SmallTag(net.b.endpoint.session.confirmed);
      EarlierIsEither(trackerA.diagnostic, trackerB.diagnostic);
      var desync := Earlier(trackerA.diagnostic, trackerB.diagnostic);
      var summary := ReportOf(frameCount, reportA, reportB, recorder.expectedHash, verified.Ok?, desync);
      SuccessMeansConfirmed(frameCount, reportA, reportB, recorder.expectedHash, desync);
      report := Some(summary);
      if desync.Some? {
        return Ok(true);
      }
      if !summary.success {
        return Err(if summary.confirmedFrame != frameCount then Timeout else ReplayMismatch);
      }
      r := Ok(true);
    }

    /** Flush both peers, verify the recorded replay, and judge the run. */
    method Finalize() returns (r: Result<bool>)
      requires InPhase() && tick == LastTick()
      modifies this`net, this`report, peerA, peerA.storage.repr, peerB, peerB.storage.repr
      ensures Flushes(old(net)) && Verdict(r)
      ensures Linked() && Good(setup, net)
    {
      hide RollbackSession.Valid, SequenceWindow.Valid, Recorder.Valid, T.SeededTransport.Valid, Sane, Timeline.Valid,
           PairFold, Good, InitialWorld, FlushedBoth, Verdict, AtTarget;
      InitialFrame();
      FlushPeers();
      r := Judge();
    }

    // ---- step ----

    /** The end of a run: a report of success or of a real desync. */
    ghost predicate Concluded()
      reads this`report
    {
      Judged() && (report.value.success || report.value.desync.Some?)
    }

    ghost predicate Smooth()
      reads this`report
    {
      Concluded() && report.value.counters.deepest <= Schedule().delay
    }

    ghost predicate Alive()
      reads this, repr
    {
      && Linked() && Good(setup, net) && (failure.None? && !finished ==> InPhase() && tick < LastTick())
      && (finished ==> Concluded())
    }

    /** Only a packet the transport refuses counts as a failed send, and a roomy transport refuses none. */
    ghost predicate Refuses(o: Outcome, before: nat)
      reads transport
    {
      if o.Refused? then transport.failedSends > before && !Roomy(transport.config)
      else transport.failedSends == before
    }

    /** A tick that ran leads to the next one or, after the last, to the verdict on both peers flushed. */
    ghost predicate Leads(o: Outcome, r: Result<bool>)
      reads this`net, this`tick, this`report, transport
    {
      if o.Refused? then r == Err(Refusal(transport.config))
      else if o.Failed? then r.Err?
      else if tick < LastTick() then r == Ok(false) && net == o.after
      else Flushes(o.after) && Verdict(r)
    }

    method StepOnce(localButtons: Option<u8>) returns (r: Result<bool>, ghost o: Outcome)
      requires InPhase() && tick < LastTick() && FiveBits(localButtons) && Scripted(localButtons)
      modifies this, repr
      ensures finished == old(finished) && failure == old(failure)
      ensures Refuses(o, old(transport.failedSends))
      ensures Became(setup, Schedule(), old(net), old(tick), o) && Leads(o, r) && (o.Ran? ==> tick == old(tick) + 1)
      ensures r.Ok? ==> o.Ran? && (r.value <==> tick == LastTick()) && (r.value ==> Concluded())
      ensures old(Thriving()) ==>
          if r.Ok? then (if r.value then Smooth() else Thriving())
          else r == Err(ReplayMismatch) && !(setup.variantA.Canonical? && setup.variantB.Canonical?)
      ensures Linked() && Good(setup, net) && (r == Ok(false) ==> InPhase() && tick < LastTick())
    {
      hide LiveScenario.Linked, LiveScenario.InPhase, LiveScenario.Thriving, LiveScenario.Judged, Good, HashCanonical,
           Timeline.Valid, FlushedBoth;
      ghost var thriving := Thriving();
      var ran;
      ran, o := RunTick(localButtons);
      if ran.Err? {
        return Err(ran.error), o;
      }
      if tick == frameCount + tail + 32 {
        if thriving {
          ThrivingEnds();
        }
        Apart();
        r := Finalize();
      } else {
        r := Ok(false);
      }
    }

    lemma ThrivingEnds()
      requires Linked() && Thriving() && tick == LastTick()
      ensures var a, b := net.a.endpoint.session, net.b.endpoint.session;
        && a.Valid() && b.Valid() && FlushedBoth(net) == net && a.confirmed == b.confirmed == frameCount
        && a.counters.deepest <= Schedule().delay && b.counters.deepest <= Schedule().delay
    {
      hide Timeline.Valid, Timeline.Flushed, InitialWorld, Ready, Converged, RollbackSession.Valid,
           SequenceWindow.Valid, Recorder.Valid, T.SeededTransport.Valid;
      InitialFrame();
      ReadyConverges(setup, Schedule(), View(), tick);
      ConvergedIsIdle(setup, Schedule(), A, net.a);
      ConvergedIsIdle(setup, Schedule(), B, net.b);
    }

    lemma Apart()
      requires Linked()
      ensures this !in repr && transport in repr
      ensures peerA in repr && peerB in repr && peerA.storage.repr <= repr && peerB.storage.repr <= repr
      ensures transport !in peerA.storage.repr && transport !in peerB.storage.repr
    {
      hide RollbackSession.Valid, SequenceWindow.Valid, Recorder.Valid, T.SeededTransport.Valid;
    }

    /** Buttons given for A in this tick, if any, are the ones the script has for it. */
    ghost predicate Scripted(localButtons: Option<u8>)
      reads this`tick
    {
      localButtons.Some? && localButtons.value < 32 && tick < frameCount ==> localButtons.value == script(tick, A)
    }

    /**
     * `step`: a failure is sticky, and so is the end of the run; buttons beyond the five known ones are refused without
     * failing. The script already says what A really pressed, so live buttons are those of the script.
     */
    method Step(localButtons: Option<u8>) returns (r: Result<bool>, ghost o: Outcome)
      requires Alive() && Scripted(localButtons)
      modifies this, repr
      ensures Alive()
      ensures old(failure).Some? ==>
          r == Err(old(failure).value) && failure == old(failure) && net == old(net) && tick == old(tick)
      ensures old(failure).None? && old(finished) ==>
          r == Ok(true) && failure.None? && finished && net == old(net) && tick == old(tick)
      ensures old(failure).None? && !old(finished) && localButtons.Some? && localButtons.value >= 32 ==>
          r == Err(InvalidArgument) && failure.None? && !finished && net == old(net) && tick == old(tick)
      ensures old(Steps(localButtons)) ==>
          if r.Err? then failure == Some(r.error) else failure.None? && finished == r.value && tick == old(tick) + 1
      ensures old(Steps(localButtons)) ==> Became(setup, Schedule(), old(net), old(tick), o) && Leads(o, r)
      ensures old(Steps(localButtons)) ==>
          (o.Ran? ==> tick == old(tick) + 1) && Refuses(o, old(transport.failedSends))
      ensures old(Steps(localButtons) && Thriving()) ==>
          if r.Ok? then (r.value <==> tick == LastTick()) && (if r.value then Smooth() else Thriving())
          else r == Err(ReplayMismatch) && !(setup.variantA.Canonical? && setup.variantB.Canonical?)
    {
      hide LiveScenario.Linked, LiveScenario.InPhase, LiveScenario.Thriving, LiveScenario.Concluded,
           LiveScenario.Smooth, LiveScenario.Leads, Became, Roomy, Good;
      Apart();
      o := Refused;
      if failure.Some? {
        return Err(failure.value), o;
      }
      if finished {
        return Ok(true), o;
      }
      if localButtons.Some? && localButtons.value >= 32 {
        return Err(InvalidArgument), o;
      }
      r, o := StepOnce(localButtons);
      Apart();
      if r.Err? {
        failure := Some(r.error);
      } else {
        finished := r.value;
      }
    }

    /** A call with these buttons runs a tick. */
    ghost predicate Steps(localButtons: Option<u8>)
      reads this`failure, this`finished
    {
      failure.None? && !finished && (localButtons.None? || localButtons.value < 32)
    }
  }

  lemma InitialFrame()
    ensures InitialWorld().frame == 0
  {
  }

  lemma PlayableRun(live: LiveScenario)
    requires live.Configured() && live.Schedule().delay < WINDOW
    ensures Playable(live.setup, live.Schedule())
  {
    hide FiveBit;
    hide Sound;
    InitialWorldIsSound();
  }

  lemma EarlierIsEither(a: Option<Diagnostic>, b: Option<Diagnostic>)
    ensures Earlier(a, b) == a || Earlier(a, b) == b
    ensures Earlier(a, b).None? <==> a.None? && b.None?
  {
  }

  lemma RecordedHash(recorder: Recorder)
    requires recorder.Valid()
    ensures |recorder.inputs| == recorder.frameCount ==> recorder.expectedHash == HashCanonical(recorder.state)
  {
    hide Replayed, Checks, Sound, HashCanonical;
  }

  // ---- run_seeded_scenario ----

  const DEFAULT_MAX_ROLLBACK: u32 := 120

  ghost predicate Fresh(s: Setup, net: Net) {
    var a := Config(A, s.initial, DEFAULT_MAX_ROLLBACK, s.variantA);
    var b := Config(B, s.initial, DEFAULT_MAX_ROLLBACK, s.variantB);
    && s.initial == InitialWorld()
    && net == Net(Peer(Endpoint(Start(a), EMPTY, None), [], 1), Peer(Endpoint(Start(b), EMPTY, None), [], 1), {})
  }

  lemma FreshRunIsReady(s: Setup, plan: Plan, live: Live)
    requires Fresh(s, live.net) && plan.delay < WINDOW && live.queue == []
    ensures Ready(s, plan, live, 0)
  {
    hide Ready, Sound, InitialWorld, Good;
    InitialWorldIsSound();
    StartIsReady(s, plan, live);
  }

  lemma FreshRunIsGood(s: Setup, net: Net)
    requires Fresh(s, net)
    ensures Good(s, net) && net.a.endpoint.session.Now() == net.b.endpoint.session.Now() == 0
  {
    hide Sound, Good;
    InitialWorldIsSound();
    BeginningIsGood(s, net);
  }

  lemma FreshRunIsAlive(run: LiveScenario)
    requires run.Linked() && Fresh(run.setup, run.net) && run.transport.queue == [] && run.tick == 0
    requires run.recorder.inputs == [] && run.recorder.state == InitialWorld() && !run.finished
    ensures run.Alive()
  {
    hide LiveScenario.Linked, Good, InitialWorld, Next;
    FreshRunIsGood(run.setup, run.net);
    PlausibleCounts(run);
  }

  lemma PlausibleCounts(run: LiveScenario)
    requires run.Linked()
    ensures 0 < run.frameCount
  {
  }

  /** The trace of a run: only a refused packet or a failing arrival ends it early; its last net gets the verdict. */
  ghost predicate Leaves(run: LiveScenario, start: Net, refusals: int, trace: Trace, r: Result<RunReport>)
    reads run, run.transport
  {
    && Traced(run.setup, run.Schedule(), trace) && trace.nets[0] == start
    && (Roomy(run.transport.config) ==> refusals == 0)
    && (refusals == 0 && trace.failing.None? ==> |trace.ticks| == run.LastTick())
    && (if refusals > 0 then r == Err(Refusal(run.transport.config)) && trace.failing.None? else refusals == 0)
    && (trace.failing.Some? ==> r.Err?)
    && (|trace.ticks| == run.LastTick() ==>
          && run.Flushes(trace.nets[|trace.ticks|])
          && run.Verdict(if r.Ok? then Ok(true) else Err(r.error))
          && (r.Ok? ==> r.value == run.report.value))
  }

  method RunToEnd(run: LiveScenario) returns (r: Result<RunReport>, ghost trace: Trace)
    requires run.Alive() && run.tick == 0 && run.failure.None? && !run.finished
    modifies run, run.repr
    ensures r.Ok? ==> run.Concluded() && r.value == run.report.value
    ensures Leaves(run, old(run.net), run.transport.failedSends - old(run.transport.failedSends), trace, r)
    ensures old(run.Thriving()) ==>
        if r.Ok? then run.Smooth()
        else r == Err(ReplayMismatch) && !(run.setup.variantA.Canonical? && run.setup.variantB.Canonical?)
  {
    hide LiveScenario.Linked, LiveScenario.InPhase, LiveScenario.Thriving, LiveScenario.Concluded, Good, LossyTick,
         FailingTick, Roomy, Refusal, LiveScenario.Verdict, LiveScenario.Flushes, LiveScenario.Smooth;
    ghost var thriving := run.Thriving();
    trace := Trace([run.net], [], None);
    for tick := 0 to run.frameCount + run.tail + 32
      invariant run.Alive() && run.failure.None? && !run.finished && run.tick == tick
      invariant thriving ==> run.Thriving()
      invariant Traced(run.setup, run.Schedule(), trace) && trace.failing.None? && |trace.ticks| == tick
      invariant trace.nets[0] == old(run.net) && trace.nets[tick] == run.net
      invariant run.transport.failedSends == old(run.transport.failedSends)
    {
      var step;
      ghost var o;
      step, o := run.Step(None);
      if o.Ran? {
        TracedOneMore(run.setup, run.Schedule(), trace, o.m, o.after);
        trace := Trace(trace.nets + [o.after], trace.ticks + [o.m], None);
      } else if o.Failed? {
        trace := trace.(failing := Some(o.m));
      }
      if step.Err? {
        return Err(step.error), trace;
      }
      if step.value {
        ReportedAtEnd(run);
        return Ok(run.report.value), trace;
      }
    }
    r := Err(Timeout);
  }

  lemma ReportedAtEnd(run: LiveScenario)
    requires run.Concluded()
    ensures run.report.Some?
  {
  }

  /** The canonical rules for A and any for B, as `run_seeded_scenario` sets the peers up. */
  function SeededSetup(script: Script, scenarioSeed: u64, variantB: Variant): Setup {
    Setup(InitialWorld(), Canonical, variantB, script, scenarioSeed)
  }

  lemma FreshRunStartsOut(s: Setup, plan: Plan, net: Net)
    requires Fresh(s, net) && plan.delay < WINDOW
    ensures StartsOut(s, plan, net) && s.Base() == 0
  {
    hide Sound, InitialWorld;
    InitialFrame();
    InitialWorldIsSound();
  }

  /**
   * For every lag: if the network was good enough for it, the run ended with both boundaries at the target, no rollback
   * deeper than the lag, and a failure only of different rules.
   */
  ghost predicate Survives(s: Setup, schedule: Plan, trace: Trace, r: Result<RunReport>) {
    forall plan: Plan :: plan.frames == schedule.frames && plan.tail == schedule.tail && Endures(s, plan, trace) ==>
      if r.Ok? then r.value.confirmedFrame == plan.frames && r.value.counters.deepest <= plan.lag
      else r == Err(ReplayMismatch) && !s.variantB.Canonical?
  }

  lemma EnduredRun(run: LiveScenario, start: Net, trace: Trace, r: Result<RunReport>, plan: Plan)
    requires Leaves(run, start, 0, trace, r) && Fresh(run.setup, start) && run.setup.variantA.Canonical?
    requires plan.frames == run.frameCount && plan.tail == run.tail && Endures(run.setup, plan, trace)
    ensures
      if r.Ok? then r.value.confirmedFrame == plan.frames && r.value.counters.deepest <= plan.lag
      else r == Err(ReplayMismatch) && !run.setup.variantB.Canonical?
  {
    hide LossyTick, FailingTick, StartsOut, Converged, Timeline.Valid, Timeline.Flushed, LiveScenario.Judged,
         HashCanonical, Fresh, InitialWorld, Roomy, ReachesInTime;
    var last := trace.nets[|trace.ticks|];
    FreshRunStartsOut(run.setup, plan, start);
    EnduringRunsArrive(run.setup, run.Schedule(), plan, trace);
    ConvergedIsIdle(run.setup, plan, A, last.a);
    ConvergedIsIdle(run.setup, plan, B, last.b);
  }

  lemma RunSurvives(run: LiveScenario, start: Net, trace: Trace, r: Result<RunReport>)
    requires Leaves(run, start, 0, trace, r) && Fresh(run.setup, start) && run.setup.variantA.Canonical?
    ensures Survives(run.setup, run.Schedule(), trace, r)
  {
    hide Leaves, Endures, Fresh;
    forall plan: Plan | plan.frames == run.frameCount && plan.tail == run.tail && Endures(run.setup, plan, trace)
      ensures
        if r.Ok? then r.value.confirmedFrame == plan.frames && r.value.counters.deepest <= plan.lag
        else r == Err(ReplayMismatch) && !run.setup.variantB.Canonical?
    {
      EnduredRun(run, start, trace, r, plan);
    }
  }

  /**
   * The whole run. When it returns a report, either both peers are confirmed at the last frame in the state of the
   * direct simulation, or B plays by other rules and the report names a boundary at which the two simulations differ.
   * Without loss, and with room for packets that take at most D = base + 2 * jitter + 2 <= min(63, tail + 32) ticks,
   * peers of one variant always succeed, and peers of different variants only fail by ending in different states.
   * Under loss the same holds of every run in which no packet was refused, nothing got through more than `delay` < 64
   * ticks late, and every frame got through to each peer within `lag` <= tail + 32 ticks in one of the packets that
   * carry it; `trace` is what the network did to the run.
   */
  method RunSeededScenario(c: T.Config, scenarioSeed: u64, transportSeed: u64, script: Script, variantB: Variant,
      frames: u32, tail: u32) returns (r: Result<RunReport>, ghost trace: Trace, ghost refusals: nat)
    requires forall frame, p :: script(frame, p) < 32
    requires frames + tail + 96 < HALF || frames + tail + 32 > U32 - 1
    ensures !(0 < frames <= Replays.MAX_REPLAY_FRAMES) || frames + tail + 32 > U32 - 1 ==> r == Err(InvalidArgument)
    ensures 0 < frames <= Replays.MAX_REPLAY_FRAMES && frames + tail + 96 < HALF
            && Ample(c, LossFree(frames, tail, c)) && T.LongestDelay(c) < WINDOW ==>
        if r.Ok? then r.value.counters.deepest <= T.LongestDelay(c)
        else r == Err(ReplayMismatch) && !variantB.Canonical?
    ensures 0 < frames <= Replays.MAX_REPLAY_FRAMES && frames + tail + 96 < HALF ==>
        && var s := SeededSetup(script, scenarioSeed, variantB);
           && Traced(s, LossFree(frames, tail, c), trace) && Fresh(s, trace.nets[0]) && (Roomy(c) ==> refusals == 0)
           && (refusals > 0 ==> r == Err(Refusal(c)))
           && (refusals == 0 && (r.Ok? || trace.failing.None?) ==> EndsIn(frames + tail + 32, trace))
           && (refusals == 0 ==> Survives(s, LossFree(frames, tail, c), trace, r))
    ensures r.Ok? ==>
        && r.value.replayVerified && (r.value.success <==> r.value.desync.None?)
        && var s := SeededSetup(script, scenarioSeed, variantB);
           && (r.value.success ==> r.value.confirmedFrame == frames && r.value.finalHashA == r.value.finalHashB
                                     == HashCanonical(PairFold(s, Canonical, frames)))
           && (RealDesync(s, A, r.value.desync) || RealDesync(s, B, r.value.desync))
    ensures r.Ok? && variantB.Canonical? ==> r.value.success
  {
    hide RollbackSession.Valid, SequenceWindow.Valid, Recorder.Valid, T.SeededTransport.Valid, Sane, Ready, Good,
         Generating, Simulating, Ample, HashCanonical, PairFold, InitialWorld, Sound, Start, LiveScenario.Linked,
         LiveScenario.Alive, Leaves, Roomy, Endures, Traced;
    trace, refusals := Trace([], [], None), 0;
    if frames == 0 || frames > Replays.MAX_REPLAY_FRAMES || tail > U32 - 1 - frames - 32 {
      return Err(InvalidArgument), trace, refusals;
    }
    InitialWorldIsSound();
    var configA := Config(A, InitialWorld(), DEFAULT_MAX_ROLLBACK, Canonical);
    var configB := Config(B, InitialWorld(), DEFAULT_MAX_ROLLBACK, variantB);
    var peerA := new RollbackSession(configA);
    var peerB := new RollbackSession(configB);
    var run := new LiveScenario(c, scenarioSeed, transportSeed, script, frames, tail, peerA, peerB);
    if Ample(c, LossFree(frames, tail, c)) && T.LongestDelay(c) < WINDOW {
      FreshRunIsReady(run.setup, run.Schedule(), run.View());
    }
    FreshRunIsAlive(run);
    ghost var start := run.net;
    r, trace := RunToEnd(run);
    refusals := run.transport.failedSends;
    LeavesTrace(run, start, refusals, trace, r);
    if refusals == 0 {
      RunSurvives(run, start, trace, r);
    }
  }

  /** The run reached its end and no arrival failed. */
  ghost predicate EndsIn(n: nat, trace: Trace) { |trace.ticks| == n && trace.failing.None? }

  lemma LeavesTrace(run: LiveScenario, start: Net, refusals: int, trace: Trace, r: Result<RunReport>)
    requires Leaves(run, start, refusals, trace, r)
    ensures Traced(run.setup, run.Schedule(), trace) && trace.nets[0] == start
      && (Roomy(run.transport.config) ==> refusals == 0)
    ensures
      if refusals > 0 then r == Err(Refusal(run.transport.config))
      else r.Ok? || trace.failing.None? ==> EndsIn(run.LastTick(), trace)
  {
    hide Traced, Roomy, Refusal, LiveScenario.Verdict;
  }
}
