/**
 * The deterministic two-peer run: both peers, the packets between them and the seeded transport's queue
 * (`LiveScenario::Storage::step_once`, src/report/scenario_runner.cpp; src/transport/seeded_transport.cpp).
 * Without loss and with enough queue, bandwidth and age, it converges.
 */
module Lockstep {
  import opened Core
  import opened FrameRings
  import opened Simulation
  import opened SimulationLaws
  import opened Canonical
  import opened Timelines
  import opened SessionLaws
  import opened ExtrapolationLaws
  import opened SequenceWindows
  import opened Codec
  import opened Exchange
  import opened Protocol
  import opened Convergence
  import T = Transport

  datatype Live = Live(net: Net, queue: seq<T.Scheduled>, nextOrdinal: nat)

  function EndpointOf(p: PlayerId): T.Endpoint { if p.A? then T.A else T.B }

  function PlayerAt(e: T.Endpoint): PlayerId { if e.A? then A else B }

  /** The letter a queued copy carries: a packet sent at tick k has sequence number k + 1. */
  function LetterOf(q: T.Scheduled): Letter
    requires Decoded(q.bytes).Ok?
  {
    Letter(PlayerAt(q.to), q.enqueuedAt + 1, Decoded(q.bytes).value)
  }

  ghost predicate Genuine(net: Net, q: T.Scheduled) {
    Decoded(q.bytes).Ok? && LetterOf(q) in net.wire && |q.bytes| <= LARGEST_PACKET
  }

  const LARGEST_PACKET: int := 740

  // ---- The stages of a tick ----

  ghost function GeneratedBy(s: Setup, net: Net, p: PlayerId): Net {
    var peer := net.At(p);
    net.With(p, peer.(history := peer.history + [ScriptedInput(s, s.Base() + |peer.history|, p)]))
  }

  ghost function PacketFrom(s: Setup, net: Net, p: PlayerId): Packet
    requires |net.At(p).endpoint.session.used| == |net.At(p).endpoint.session.local|
  {
    MadePacket(net.At(p).endpoint.session, net.At(p).history, s.scenario, Tag(net.At(p).nextNumber))
  }

  ghost function SentBy(s: Setup, net: Net, p: PlayerId): Net
    requires |net.At(p).endpoint.session.used| == |net.At(p).endpoint.session.local|
  {
    var peer := net.At(p);
    net.With(p, peer.(nextNumber := peer.nextNumber + 1))
       .(wire := net.wire + {Letter(Other(p), peer.nextNumber, PacketFrom(s, net, p))})
  }

  /** Both packets of a tick are made from the same net before either changes it. */
  ghost predicate BothSent(s: Setup, before: Net, after: Net) {
    var a, b := before.a.endpoint.session, before.b.endpoint.session;
    |a.used| == |a.local| && |b.used| == |b.local| && after == SentBy(s, SentBy(s, before, A), B)
  }

  /** One copy of `bytes` or two at the end of the queue. */
  ghost predicate Appended(c: T.Config, before: seq<T.Scheduled>, ordinal: nat, p: PlayerId, bytes: seq<u8>, now: u32,
                           after: seq<T.Scheduled>, ordinal': nat) {
    && |before| < |after| <= |before| + 2 && after[..|before|] == before
    && ordinal' == ordinal + |after| - |before|
    && forall i :: |before| <= i < |after| ==>
         T.CopyOf(c, after[i], EndpointOf(p), EndpointOf(Other(p)), bytes, now, ordinal + i - |before|, i > |before|)
  }

  /** `send_packet` on a loss-free transport with room. */
  ghost predicate EnqueuedBy(s: Setup, c: T.Config, before: Live, p: PlayerId, now: u32, after: Live) {
    var t := before.net.At(p).endpoint.session;
    && |t.used| == |t.local| && Encoded(PacketFrom(s, before.net, p)).Ok?
    && after.net == SentBy(s, before.net, p)
    && Appended(c, before.queue, before.nextOrdinal, p, Encoded(PacketFrom(s, before.net, p)).value, now,
                after.queue, after.nextOrdinal)
  }

  lemma LetterIsDeliverable(s: Setup, net: Net, letter: Letter)
    requires Good(s, net) && letter in net.wire
    ensures var e := net.At(letter.to).endpoint; e.session.Valid()
    ensures Good(s, net.With(letter.to, Delivered(net.At(letter.to), letter, s.scenario)))
  {
    hide PeerIsGood, GoodLetter, Timeline.Valid, Delivered;
    DeliveryIsGood(s, letter.to, net.At(letter.to), letter);
  }

  ghost function DeliveredOne(s: Setup, net: Net, letter: Letter): (r: Net)
    requires Good(s, net) && letter in net.wire
    ensures Good(s, r) && r.wire == net.wire
  {
    hide Good, Delivered;
    LetterIsDeliverable(s, net, letter);
    net.With(letter.to, Delivered(net.At(letter.to), letter, s.scenario))
  }

  /** One delivery: the net after it, and the error it returned. */
  ghost function Landing(s: Setup, net: Net, q: T.Scheduled): (r: (Net, Option<ErrorCode>))
    requires Good(s, net) && Genuine(net, q)
    ensures Good(s, r.0) && r.0.wire == net.wire
  {
    hide Good, Decoded, Processed;
    var letter := LetterOf(q);
    LetterIsDeliverable(s, net, letter);
    (DeliveredOne(s, net, letter), Processed(net.At(letter.to).endpoint, letter.packet, letter.number, s.scenario).1)
  }

  /** Deliveries in order; the first error stops with everything before it already processed. */
  ghost function DeliveredAll(s: Setup, net: Net, qs: seq<T.Scheduled>): (r: (Net, Option<ErrorCode>))
    requires Deliverable(s, net, qs)
    ensures Good(s, r.0) && r.0.wire == net.wire
    decreases |qs|
  {
    hide Good, Landing, Genuine;
    if qs == [] then (net, None)
    else
      var (after, error) := Landing(s, net, qs[0]);
      assert forall q :: q in qs[1..] ==> q in qs;
      SameWire(net, after, qs[1..]);
      if error.Some? then (after, error) else DeliveredAll(s, after, qs[1..])
  }

  ghost predicate Deliverable(s: Setup, net: Net, qs: seq<T.Scheduled>) {
    Good(s, net) && forall q :: q in qs ==> Genuine(net, q)
  }

  ghost function AdvancedBy(s: Setup, net: Net, p: PlayerId): Net
    requires net.At(p).endpoint.session.Valid()
  {
    var peer := net.At(p);
    var t := peer.endpoint.session;
    net.With(p, peer.(endpoint := peer.endpoint.(session := t.Advanced(ScriptedInput(s, t.Now(), p)))))
  }

  // ---- What a run on schedule keeps ----

  ghost predicate Counted(net: Net, generated: nat, nextNumber: int) {
    && |net.a.history| == generated && |net.b.history| == generated
    && net.a.nextNumber == nextNumber && net.b.nextNumber == nextNumber
  }

  /** No copy is overdue; at most four ordinals are issued per tick. */
  ghost predicate QueueOnTime(delay: nat, queue: seq<T.Scheduled>, nextOrdinal: nat, tick: nat, extra: nat) {
    && T.DistinctOrdinals(queue)
    && forall q :: q in queue ==>
         && tick <= q.scheduledFor <= q.enqueuedAt + delay && q.enqueuedAt <= tick
         && nextOrdinal - 4 * (tick - q.enqueuedAt) - extra <= q.ordinal < nextOrdinal
  }

  ghost predicate InFlight(queue: seq<T.Scheduled>, letter: Letter) {
    exists q :: q in queue && Decoded(q.bytes).Ok? && LetterOf(q) == letter
  }

  ghost predicate Accounted(net: Net, queue: seq<T.Scheduled>, letter: Letter) {
    letter.number in net.At(letter.to).endpoint.window.accepted || InFlight(queue, letter)
  }

  ghost predicate OnSchedule(s: Setup, plan: Plan, live: Live, tick: nat, sent: nat, extra: nat) {
    && Good(s, live.net)
    && InStep(s, plan, A, live.net.a, tick, sent) && InStep(s, plan, B, live.net.b, tick, sent)
    && (forall letter :: letter in live.net.wire ==>
          WellSent(s, plan, letter) && Accounted(live.net, live.queue, letter))
    && (forall q :: q in live.queue ==> Genuine(live.net, q))
    && QueueOnTime(plan.delay, live.queue, live.nextOrdinal, tick, extra)
  }

  ghost predicate FiveBit(s: Setup) { forall frame, p :: s.script(frame, p) < 32 }

  /** Inputs use the five known buttons and the run stays within half the tag range. */
  ghost predicate Playable(s: Setup, plan: Plan) {
    && FiveBit(s)
    && s.initial.nextId + 2 * (plan.frames + 1) < U32
    && 0 < plan.frames && plan.frames + plan.tail + 32 + plan.delay < HALF && 0 < plan.delay < WINDOW
    && plan.lag < CAPACITY - 2
  }

  // ---- Generating and sending ----

  lemma GenerateOnSchedule(s: Setup, plan: Plan, live: Live, tick: nat, p: PlayerId)
    requires OnSchedule(s, plan, live, tick, tick, 0) && |live.net.At(p).history| + 1 < HALF
    ensures OnSchedule(s, plan, live.(net := GeneratedBy(s, live.net, p)), tick, tick, 0)
  {
    hide PeerIsGood, GoodLetter, OnTime, HeardFrom, Timeline.Valid, Prompt, WellSent, QueueOnTime, InFlight, Genuine,
         Deadline;
    GenerateIsGood(s, p, live.net.At(p));
    SameWire(live.net, GeneratedBy(s, live.net, p), live.queue);
  }

  lemma SameWire(before: Net, after: Net, queue: seq<T.Scheduled>)
    requires before.wire <= after.wire && forall q :: q in queue ==> Genuine(before, q)
    ensures forall q :: q in queue ==> Genuine(after, q)
  {
  }

  /** The packet a peer sends at a tick encodes, and decodes back to itself. */
  lemma SentPacketEncodes(s: Setup, plan: Plan, net: Net, tick: nat, p: PlayerId)
    requires PeerIsGood(s, p, net.At(p)) && FiveBit(s) && 0 < plan.frames
    requires |net.At(p).history| == Min(tick + 1, plan.frames) && net.At(p).nextNumber == tick + 1
    ensures var t := net.At(p).endpoint.session; |t.used| == |t.local|
    ensures var packet := PacketFrom(s, net, p);
      && Encoded(packet).Ok? && Decoded(Encoded(packet).value) == Ok(packet)
      && |Encoded(packet).value| <= LARGEST_PACKET
      && WellSent(s, plan, Letter(Other(p), tick + 1, packet))
  {
    hide Timeline.Valid, Honest, Decoded, Encoded, EncodeError, MadePacket;
    var peer := net.At(p);
    SessionIsValid(s, p, peer);
    var packet := PacketFrom(s, net, p);
    MadePacketEncodes(peer.endpoint.session, peer.history, s.scenario, Tag(tick + 1));
    PacketIsWindow(s, peer, Tag(tick + 1));
    assert peer.history == Scripted(s, p, Min(tick + 1, plan.frames));
    EncodingIsSmall(packet);
  }

  lemma PacketIsWindow(s: Setup, peer: Peer, sequence: u32)
    requires |peer.endpoint.session.used| == |peer.endpoint.session.local|
    ensures MadePacket(peer.endpoint.session, peer.history, s.scenario, sequence).inputs == WindowFrom(peer.history)
    ensures MadePacket(peer.endpoint.session, peer.history, s.scenario, sequence).sequence == sequence
  {
  }

  lemma SendOnSchedule(s: Setup, plan: Plan, c: T.Config, before: Live, tick: nat, p: PlayerId, extra: nat, after: Live)
    requires OnSchedule(s, plan, before, tick, tick + 1, extra) && Playable(s, plan) && T.LongestDelay(c) == plan.delay
    requires |before.net.At(p).history| == Min(tick + 1, plan.frames) && before.net.At(p).nextNumber == tick + 1
    requires tick < HALF && EnqueuedBy(s, c, before, p, tick, after)
    ensures OnSchedule(s, plan, after, tick, tick + 1, extra + 2)
  {
    hide PeerIsGood, GoodLetter, OnTime, HeardFrom, Timeline.Valid, Prompt, WellSent, QueueOnTime, InFlight, Deadline,
         T.CopyOf, Decoded, Encoded, MadePacket, Genuine, T.DistinctOrdinals;
    SentPacketEncodes(s, plan, before.net, tick, p);
    SentLetterIsGood(s, p, before.net.At(p));
    SendIsGood(s, p, before.net.At(p));
    SameWire(before.net, after.net, before.queue);
    var letter := Letter(Other(p), tick + 1, PacketFrom(s, before.net, p));
    CopiesCarry(s, c, before, p, tick, after, letter);
    CopiesOnTime(s, plan, c, before, p, tick, extra, after);
    forall l | l in after.net.wire ensures WellSent(s, plan, l) && Accounted(after.net, after.queue, l) {
      if l in before.net.wire {
        StillInFlight(before.queue, after.queue, l);
      }
    }
  }

  lemma StillInFlight(before: seq<T.Scheduled>, after: seq<T.Scheduled>, letter: Letter)
    requires |before| <= |after| && after[..|before|] == before
    ensures InFlight(before, letter) ==> InFlight(after, letter)
    ensures forall q :: q in before ==> q in after
  {
    hide Decoded;
    forall q | q in before ensures q in after {
      assert q in after[..|before|];
    }
  }

  lemma CopiesCarry(s: Setup, c: T.Config, before: Live, p: PlayerId, tick: u32, after: Live, letter: Letter)
    requires EnqueuedBy(s, c, before, p, tick, after) && letter in after.net.wire
    requires var packet := PacketFrom(s, before.net, p);
      letter == Letter(Other(p), tick + 1, packet)
      && Decoded(Encoded(packet).value) == Ok(packet) && |Encoded(packet).value| <= LARGEST_PACKET
    requires forall q :: q in before.queue ==> Genuine(after.net, q)
    ensures InFlight(after.queue, letter) && forall q :: q in after.queue ==> Genuine(after.net, q)
  {
    hide Decoded, Encoded, MadePacket;
    var n := |before.queue|;
    forall i | n <= i < |after.queue| ensures Genuine(after.net, after.queue[i]) && LetterOf(after.queue[i]) == letter {
    }
    forall q | q in after.queue ensures Genuine(after.net, q) {
      var i :| 0 <= i < |after.queue| && after.queue[i] == q;
      if i < n {
        assert after.queue[..n][i] == q && q in before.queue;
      }
    }
    assert after.queue[n] in after.queue;
  }

  lemma CopiesOnTime(s: Setup, plan: Plan, c: T.Config, before: Live, p: PlayerId, tick: u32, extra: nat, after: Live)
    requires EnqueuedBy(s, c, before, p, tick, after) && T.LongestDelay(c) == plan.delay
    requires QueueOnTime(plan.delay, before.queue, before.nextOrdinal, tick, extra)
    ensures QueueOnTime(plan.delay, after.queue, after.nextOrdinal, tick, extra + 2)
  {
    hide Decoded, Encoded, MadePacket;
    var n := |before.queue|;
    forall i | 0 <= i < |after.queue|
      ensures var q := after.queue[i];
        && tick <= q.scheduledFor <= q.enqueuedAt + plan.delay && q.enqueuedAt <= tick
        && after.nextOrdinal - 4 * (tick - q.enqueuedAt) - (extra + 2) <= q.ordinal < after.nextOrdinal
        && (i < n ==> q.ordinal < before.nextOrdinal) && (i >= n ==> q.ordinal == before.nextOrdinal + i - n)
    {
      if i < n {
        assert after.queue[i] == after.queue[..n][i] && after.queue[i] in before.queue;
      }
    }
    forall i, j | 0 <= i < j < |after.queue| ensures after.queue[i].ordinal != after.queue[j].ordinal {
      if j < n {
        assert after.queue[i] == before.queue[i] && after.queue[j] == before.queue[j];
      }
    }
  }

  // ---- Delivering ----

  ghost predicate Progressed(before: Net, after: Net) {
    && after.wire == before.wire
    && after.a.history == before.a.history && after.b.history == before.b.history
    && after.a.nextNumber == before.a.nextNumber && after.b.nextNumber == before.b.nextNumber
    && before.a.endpoint.window.accepted <= after.a.endpoint.window.accepted
    && before.b.endpoint.window.accepted <= after.b.endpoint.window.accepted
  }

  ghost predicate Due(s: Setup, plan: Plan, net: Net, q: T.Scheduled, tick: nat) {
    Genuine(net, q) && Arriving(s, plan, LetterOf(q), tick)
  }

  ghost predicate Landed(net: Net, q: T.Scheduled) {
    Decoded(q.bytes).Ok? && LetterOf(q).number in net.At(LetterOf(q).to).endpoint.window.accepted
  }

  ghost predicate BothInStep(s: Setup, plan: Plan, net: Net, tick: nat, sent: nat) {
    Good(s, net) && InStep(s, plan, A, net.a, tick, sent) && InStep(s, plan, B, net.b, tick, sent)
  }

  lemma DeliverOneOnSchedule(s: Setup, plan: Plan, net: Net, letter: Letter, tick: nat)
    requires BothInStep(s, plan, net, tick, tick + 1) && 0 < plan.delay < WINDOW
    requires letter in net.wire && Arriving(s, plan, letter, tick)
    ensures var e := net.At(letter.to).endpoint;
      && e.session.Valid()
      && Processed(e, letter.packet, letter.number, s.scenario).1.None?
    ensures var after := DeliveredOne(s, net, letter);
      && BothInStep(s, plan, after, tick, tick + 1) && Progressed(net, after)
      && letter.number in after.At(letter.to).endpoint.window.accepted
  {
    hide InStep, PeerIsGood, GoodLetter, Processed, Timeline.Valid, Arriving;
    DeliveryInStep(s, plan, letter.to, net.At(letter.to), letter, tick);
    assert Good(s, DeliveredOne(s, net, letter));
    DeliveredKeepsHistory(net.At(letter.to), letter, s.scenario);
  }

  lemma DeliveredKeepsHistory(peer: Peer, letter: Letter, seed: u64)
    requires peer.endpoint.session.Valid()
    ensures var after := Delivered(peer, letter, seed);
      after.history == peer.history && after.nextNumber == peer.nextNumber
  {
  }

  lemma {:induction false} DeliverAllOnSchedule(s: Setup, plan: Plan, net: Net, qs: seq<T.Scheduled>, tick: nat)
    requires BothInStep(s, plan, net, tick, tick + 1) && 0 < plan.delay < WINDOW
    requires forall q :: q in qs ==> Due(s, plan, net, q, tick)
    ensures Deliverable(s, net, qs)
    ensures var (after, error) := DeliveredAll(s, net, qs);
      && error.None? && BothInStep(s, plan, after, tick, tick + 1) && Progressed(net, after)
      && (forall q :: q in qs ==> Landed(after, q))
    decreases |qs|
  {
    hide InStep, Good, Processed, Timeline.Valid, Arriving, Decoded, DeliveredOne;
    assert forall q :: q in qs ==> Due(s, plan, net, q, tick);
    if qs != [] {
      assert Due(s, plan, net, qs[0], tick);
      var letter := LetterOf(qs[0]);
      DeliverOneOnSchedule(s, plan, net, letter, tick);
      var after := DeliveredOne(s, net, letter);
      forall q | q in qs[1..] ensures Due(s, plan, after, q, tick) {
        assert q in qs && Due(s, plan, net, q, tick);
      }
      DeliverAllOnSchedule(s, plan, after, qs[1..], tick);
      FirstOrRest(qs);
    }
  }

  lemma FirstOrRest<X>(xs: seq<X>)
    requires xs != []
    ensures forall x :: x in xs <==> x == xs[0] || x in xs[1..]
  {
    assert xs == [xs[0]] + xs[1..];
  }

  // ---- Enough room ----

  ghost predicate Ample(c: T.Config, plan: Plan) {
    && T.PercentsAreValid(c) && c.lossPercent == 0 && c.burstLossPercent == 0
    && T.LongestDelay(c) == plan.delay == plan.lag <= c.maxAge && plan.delay <= plan.tail + 32
    && 4 * (plan.delay + 1) <= c.maxPackets
    && 4 * (plan.delay + 1) * LARGEST_PACKET <= c.maxBytes && 4 * (plan.delay + 1) * LARGEST_PACKET <= c.bandwidth
  }

  /** Distinct ordinals below a bound are no more than the bound allows. */
  lemma {:induction false} DistinctFit(queue: seq<T.Scheduled>, lo: int, hi: int)
    requires T.DistinctOrdinals(queue) && lo <= hi && forall q :: q in queue ==> lo <= q.ordinal < hi
    ensures |queue| <= hi - lo
    decreases hi - lo
  {
    if queue != [] {
      assert queue[0] in queue;
      if i :| 0 <= i < |queue| && queue[i].ordinal == hi - 1 {
        T.WithoutOne(queue, i);
        DistinctFit(queue[..i] + queue[i + 1..], lo, hi - 1);
      } else {
        DistinctFit(queue, lo, hi - 1);
      }
    }
  }

  lemma {:induction false} SmallPackets(queue: seq<T.Scheduled>)
    requires forall q :: q in queue ==> |q.bytes| <= LARGEST_PACKET
    ensures T.TotalBytes(queue) <= |queue| * LARGEST_PACKET
  {
    if queue != [] {
      var n := |queue| - 1;
      assert queue[n] in queue && forall q :: q in queue[..n] ==> q in queue;
      SmallPackets(queue[..n]);
    }
  }

  /** At most four copies per tick of the longest delay are ever queued. */
  lemma QueueIsBounded(delay: nat, queue: seq<T.Scheduled>, nextOrdinal: nat, tick: nat, extra: nat)
    requires QueueOnTime(delay, queue, nextOrdinal, tick, extra)
    requires forall q :: q in queue ==> |q.bytes| <= LARGEST_PACKET
    ensures |queue| <= 4 * delay + extra && T.TotalBytes(queue) <= (4 * delay + extra) * LARGEST_PACKET
  {
    hide T.DistinctOrdinals, T.TotalBytes;
    DistinctFit(queue, nextOrdinal - 4 * delay - extra, nextOrdinal);
    SmallPackets(queue);
  }

  /** A sweep with ample room delivers exactly what is due, and nothing has expired. */
  lemma AmpleSweep(plan: Plan, c: T.Config, queue: seq<T.Scheduled>, nextOrdinal: nat, tick: u32)
    requires Ample(c, plan) && QueueOnTime(plan.delay, queue, nextOrdinal, tick, 4)
    requires forall q :: q in queue ==> |q.bytes| <= LARGEST_PACKET
    ensures var swept := T.Swept(c, tick, c.bandwidth, T.Arranged(queue));
      && (forall q :: q in swept.delivered <==> q in queue && q.scheduledFor <= tick)
      && (forall q :: q in swept.kept <==> q in queue && q.scheduledFor > tick)
      && swept.aged == [] && T.DistinctOrdinals(swept.kept)
  {
    hide T.TotalBytes, T.Arranged, T.Swept, T.TooOld, T.Precedes;
    QueueIsBounded(plan.delay, queue, nextOrdinal, tick, 4);
    T.ArrangedIsInOrder(queue);
    forall q | q in T.Arranged(queue) ensures !T.TooOld(c, tick, q) {
      YoungEnough(plan, c, q, tick);
    }
    T.AmpleSweepIsExact(c, tick, c.bandwidth, T.Arranged(queue));
    T.SweepKeepsOrder(c, tick, c.bandwidth, T.Arranged(queue));
  }

  lemma YoungEnough(plan: Plan, c: T.Config, q: T.Scheduled, tick: u32)
    requires Ample(c, plan) && tick <= q.scheduledFor <= q.enqueuedAt + plan.delay && q.enqueuedAt <= tick
    ensures !T.TooOld(c, tick, q)
  {
    SmallMod(tick - q.enqueuedAt);
  }

  // ---- One tick ----

  /** The end of a tick's deliveries: every packet due has been accepted. */
  ghost predicate AllDelivered(s: Setup, plan: Plan, live: Live, tick: nat) {
    && OnSchedule(s, plan, live, tick, tick + 1, 4)
    && Prompt(s, plan, live.net.a.endpoint.window.accepted, tick + 1)
    && Prompt(s, plan, live.net.b.endpoint.window.accepted, tick + 1)
    && forall q :: q in live.queue ==> tick < q.scheduledFor
  }

  ghost predicate WasSent(net: Net, p: PlayerId, number: int) {
    exists letter :: letter in net.wire && letter.to == p && letter.number == number
  }

  /** Every number up to `sent` has been sent to both peers. */
  ghost predicate AllSent(net: Net, sent: nat) {
    forall n :: 1 <= n <= sent ==> WasSent(net, A, n) && WasSent(net, B, n)
  }

  lemma InFlightIsNotOverdue(delay: nat, queue: seq<T.Scheduled>, nextOrdinal: nat, tick: nat, letter: Letter)
    requires QueueOnTime(delay, queue, nextOrdinal, tick, 4) && forall q :: q in queue ==> tick < q.scheduledFor
    ensures InFlight(queue, letter) ==> tick < letter.number - 1 + delay
  {
    hide Decoded, T.DistinctOrdinals;
    if InFlight(queue, letter) {
      var q :| q in queue && Decoded(q.bytes).Ok? && LetterOf(q) == letter;
    }
  }

  lemma OverdueIsAccepted(s: Setup, plan: Plan, live: Live, tick: nat, p: PlayerId, n: nat)
    requires QueueOnTime(plan.delay, live.queue, live.nextOrdinal, tick, 4) && WasSent(live.net, p, n)
    requires forall letter :: letter in live.net.wire ==> Accounted(live.net, live.queue, letter)
    requires (forall q :: q in live.queue ==> tick < q.scheduledFor) && n - 1 + plan.delay <= tick
    ensures n in live.net.At(p).endpoint.window.accepted
  {
    hide InFlight, QueueOnTime;
    var letter :| letter in live.net.wire && letter.to == p && letter.number == n;
    InFlightIsNotOverdue(plan.delay, live.queue, live.nextOrdinal, tick, letter);
    assert Accounted(live.net, live.queue, letter);
  }

  lemma StaysAccounted(before: Net, after: Net, queue: seq<T.Scheduled>, kept: seq<T.Scheduled>, letter: Letter)
    requires Progressed(before, after) && Accounted(before, queue, letter)
    requires forall q :: q in queue && q !in kept ==> Landed(after, q)
    ensures Accounted(after, kept, letter)
  {
    hide Decoded;
    if letter.number !in before.At(letter.to).endpoint.window.accepted {
      var q :| q in queue && Decoded(q.bytes).Ok? && LetterOf(q) == letter;
      assert q in kept || Landed(after, q);
    }
  }

  lemma SentStaysSent(before: Net, after: Net, sent: nat)
    requires AllSent(before, sent) && before.wire <= after.wire
    ensures AllSent(after, sent)
  {
    forall n | 1 <= n <= sent ensures WasSent(after, A, n) && WasSent(after, B, n) {
      assert WasSent(before, A, n) && WasSent(before, B, n);
    }
  }

  lemma DueAtTick(s: Setup, plan: Plan, live: Live, tick: nat, q: T.Scheduled)
    requires OnSchedule(s, plan, live, tick, tick + 1, 4) && q in live.queue
    ensures Due(s, plan, live.net, q, tick)
  {
    hide Good, InStep, WellSent, Accounted, Decoded, T.DistinctOrdinals;
    assert LetterOf(q) in live.net.wire;
  }

  ghost predicate DeliversOnTime(s: Setup, plan: Plan, c: T.Config, live: Live, tick: u32) {
    var swept := T.Swept(c, tick, c.bandwidth, T.Arranged(live.queue));
    && Deliverable(s, live.net, swept.delivered)
    && var (after, error) := DeliveredAll(s, live.net, swept.delivered);
       error.None? && Progressed(live.net, after)
         && AllDelivered(s, plan, Live(after, swept.kept, live.nextOrdinal), tick)
  }

  /** The deliveries of a tick cannot fail, and afterwards every packet due has been accepted. */
  lemma DeliverOnSchedule(s: Setup, plan: Plan, c: T.Config, live: Live, tick: u32)
    requires OnSchedule(s, plan, live, tick, tick + 1, 4) && Ample(c, plan) && 0 < plan.delay < WINDOW
    requires AllSent(live.net, Min(tick + 1, plan.frames))
    ensures DeliversOnTime(s, plan, c, live, tick)
  {
    hide Good, InStep, WellSent, Accounted, Decoded, T.Swept, T.Arranged, Prompt, T.DistinctOrdinals, Ample, InFlight,
         DeliveredAll, Landed, WasSent;
    var swept := T.Swept(c, tick, c.bandwidth, T.Arranged(live.queue));
    forall q | q in live.queue ensures |q.bytes| <= LARGEST_PACKET {
      assert Genuine(live.net, q);
    }
    AmpleSweep(plan, c, live.queue, live.nextOrdinal, tick);
    forall q | q in swept.delivered ensures Due(s, plan, live.net, q, tick) {
      DueAtTick(s, plan, live, tick, q);
    }
    DeliverAllOnSchedule(s, plan, live.net, swept.delivered, tick);
    var after := DeliveredAll(s, live.net, swept.delivered).0;
    var later := Live(after, swept.kept, live.nextOrdinal);
    forall letter | letter in after.wire ensures WellSent(s, plan, letter) && Accounted(after, swept.kept, letter) {
      StaysAccounted(live.net, after, live.queue, swept.kept, letter);
    }
    SameWire(live.net, after, swept.kept);
    assert QueueOnTime(plan.delay, swept.kept, live.nextOrdinal, tick, 4);
    SentStaysSent(live.net, after, Min(tick + 1, plan.frames));
    AmpleLag(c, plan);
    AllPrompt(s, plan, later, tick);
  }

  lemma AmpleLag(c: T.Config, plan: Plan)
    requires Ample(c, plan)
    ensures plan.lag == plan.delay
  {
  }

  /** Without loss a frame is heard with the packet of its own tick. */
  lemma AllPrompt(s: Setup, plan: Plan, live: Live, tick: nat)
    requires QueueOnTime(plan.delay, live.queue, live.nextOrdinal, tick, 4)
      && AllSent(live.net, Min(tick + 1, plan.frames))
    requires forall letter :: letter in live.net.wire ==> Accounted(live.net, live.queue, letter)
    requires (forall q :: q in live.queue ==> tick < q.scheduledFor) && 0 < plan.delay == plan.lag
    ensures Prompt(s, plan, live.net.a.endpoint.window.accepted, tick + 1)
    ensures Prompt(s, plan, live.net.b.endpoint.window.accepted, tick + 1)
  {
    hide QueueOnTime, Accounted, WasSent, HeardFrom;
    forall k | s.Base() <= k < Deadline(s, plan, tick + 1)
      ensures k in HeardFrom(s, plan, live.net.a.endpoint.window.accepted)
      ensures k in HeardFrom(s, plan, live.net.b.endpoint.window.accepted)
    {
      var n := k - s.Base() + 1;
      assert WasSent(live.net, A, n) && WasSent(live.net, B, n);
      OverdueIsAccepted(s, plan, live, tick, A, n);
      OverdueIsAccepted(s, plan, live, tick, B, n);
      OwnPacketIsHeard(s, plan, live.net.a.endpoint.window.accepted, n);
      OwnPacketIsHeard(s, plan, live.net.b.endpoint.window.accepted, n);
    }
  }

  lemma OwnPacketIsHeard(s: Setup, plan: Plan, accepted: set<int>, n: nat)
    requires 1 <= n <= plan.frames && n in accepted
    ensures s.Base() + n - 1 in HeardFrom(s, plan, accepted)
  {
    assert s.Base() + n - 1 in Carried(s, plan, n);
  }

  // ---- Advancing ----

  lemma HasRoomToAdvance(s: Setup, plan: Plan, p: PlayerId, peer: Peer, tick: nat, sent: nat)
    requires InStep(s, plan, p, peer, tick, sent) && Playable(s, plan) && tick < plan.frames
    ensures peer.endpoint.session.Valid() && peer.endpoint.session.HasRoom()
  {
    hide OnTime, HeardFrom, Timeline.Valid, Honest;
    SessionIsValid(s, p, peer);
  }

  ghost function AdvancedBoth(s: Setup, net: Net): Net
    requires net.a.endpoint.session.Valid() && net.b.endpoint.session.Valid()
  {
    AdvancedBy(s, AdvancedBy(s, net, A), B)
  }

  lemma AdvanceOnSchedule(s: Setup, plan: Plan, live: Live, tick: nat)
    requires AllDelivered(s, plan, live, tick) && Playable(s, plan) && tick < plan.frames
    ensures live.net.a.endpoint.session.Valid() && live.net.b.endpoint.session.Valid()
    ensures live.net.a.endpoint.session.HasRoom() && live.net.b.endpoint.session.HasRoom()
    ensures var after := live.(net := AdvancedBoth(s, live.net));
      OnSchedule(s, plan, after, tick + 1, tick + 1, 0) && Progressed(live.net, after.net)
  {
    hide InStep, WellSent, Decoded, Prompt, InFlight, Timeline.Valid, Timeline.Advanced, GoodLetter, T.DistinctOrdinals,
         Timeline.HasRoom;
    HasRoomToAdvance(s, plan, A, live.net.a, tick, tick + 1);
    HasRoomToAdvance(s, plan, B, live.net.b, tick, tick + 1);
    AdvanceInStep(s, plan, A, live.net.a, tick);
    AdvanceInStep(s, plan, B, live.net.b, tick);
    InStepIsGood(s, plan, A, AdvancedBoth(s, live.net).a, tick + 1, tick + 1);
    InStepIsGood(s, plan, B, AdvancedBoth(s, live.net).b, tick + 1, tick + 1);
    SameWire(live.net, AdvancedBoth(s, live.net), live.queue);
    NextTickQueue(plan.delay, live.queue, live.nextOrdinal, tick);
  }

  lemma InStepIsGood(s: Setup, plan: Plan, p: PlayerId, peer: Peer, tick: nat, sent: nat)
    requires InStep(s, plan, p, peer, tick, sent)
    ensures PeerIsGood(s, p, peer)
  {
  }

  lemma NextTickQueue(delay: nat, queue: seq<T.Scheduled>, nextOrdinal: nat, tick: nat)
    requires QueueOnTime(delay, queue, nextOrdinal, tick, 4) && forall q :: q in queue ==> tick < q.scheduledFor
    ensures QueueOnTime(delay, queue, nextOrdinal, tick + 1, 0)
  {
    hide T.DistinctOrdinals;
  }

  lemma IdleOnSchedule(s: Setup, plan: Plan, live: Live, tick: nat)
    requires AllDelivered(s, plan, live, tick) && plan.frames <= tick
    ensures OnSchedule(s, plan, live, tick + 1, tick + 1, 0)
  {
    hide InStep, WellSent, Decoded, Prompt, InFlight, T.DistinctOrdinals;
    IdleInStep(s, plan, A, live.net.a, tick);
    IdleInStep(s, plan, B, live.net.b, tick);
    NextTickQueue(plan.delay, live.queue, live.nextOrdinal, tick);
  }

  // ---- A tick, and whole runs ----

  /** A run on schedule at the start of a tick. */
  ghost predicate Ready(s: Setup, plan: Plan, live: Live, tick: nat) {
    && OnSchedule(s, plan, live, tick, tick, 0)
    && SentThrough(plan, live.net, tick)
  }

  /** Histories and sequence counters after `ticks` ticks, with everything numbered so far sent. */
  ghost predicate SentThrough(plan: Plan, net: Net, ticks: nat) {
    && Counted(net, Min(ticks, plan.frames), Min(ticks, plan.frames + plan.tail) + 1)
    && AllSent(net, Min(ticks, plan.frames + plan.tail))
  }

  ghost function Generated(s: Setup, plan: Plan, live: Live, tick: nat): Live {
    if tick < plan.frames then live.(net := GeneratedBy(s, GeneratedBy(s, live.net, A), B)) else live
  }

  /** What `step_once` sends at a tick: nothing once the tail is over. */
  ghost predicate SendsTo(s: Setup, plan: Plan, c: T.Config, before: Live, tick: u32, halfway: Live, after: Live) {
    if tick < plan.frames + plan.tail then
      EnqueuedInTurn(s, c, before, tick, halfway, after)
    else
      before == halfway == after
  }

  ghost predicate EnqueuedInTurn(s: Setup, c: T.Config, before: Live, tick: u32, halfway: Live, after: Live) {
    EnqueuedBy(s, c, before, A, tick, halfway) && EnqueuedBy(s, c, halfway, B, tick, after)
  }

  /** What is queued stays in front; A's packet comes next, in one copy or two, then B's. */
  lemma SendsInTurn(s: Setup, c: T.Config, before: Live, tick: u32, halfway: Live, after: Live)
    requires EnqueuedInTurn(s, c, before, tick, halfway, after)
    ensures var n, m := |before.queue|, |halfway.queue|;
      && n + 1 <= m <= n + 2 && m + 1 <= |after.queue| <= m + 2 && after.queue[..n] == before.queue
      && (forall i :: n <= i < |after.queue| ==>
            && after.queue[i].enqueuedAt == tick && after.queue[i].ordinal == before.nextOrdinal + i - n
            && after.queue[i].from == (if i < m then T.A else T.B)
            && after.queue[i].to == if i < m then T.B else T.A)
  {
    hide Encoded, MadePacket, PacketFrom;
    assert forall i :: |before.queue| <= i < |halfway.queue| ==> after.queue[..|halfway.queue|][i] == halfway.queue[i];
  }

  ghost predicate DeliversTo(s: Setup, c: T.Config, before: Live, tick: u32, after: Live) {
    var swept := T.Swept(c, tick, c.bandwidth, T.Arranged(before.queue));
    && Deliverable(s, before.net, swept.delivered)
    && after.net == DeliveredAll(s, before.net, swept.delivered).0
    && after.queue == swept.kept && after.nextOrdinal == before.nextOrdinal
  }

  /** No delivery of the tick fails: the rollback window is never exceeded. */
  ghost predicate DeliversCleanly(s: Setup, c: T.Config, before: Live, tick: u32) {
    var swept := T.Swept(c, tick, c.bandwidth, T.Arranged(before.queue));
    Deliverable(s, before.net, swept.delivered) && DeliveredAll(s, before.net, swept.delivered).1.None?
  }

  ghost predicate AdvancesTo(s: Setup, plan: Plan, before: Live, tick: nat, after: Live) {
    if tick < plan.frames then
      && before.net.a.endpoint.session.Valid() && before.net.b.endpoint.session.Valid()
      && after == before.(net := AdvancedBoth(s, before.net))
    else
      after == before
  }

  /** One successful call of `step_once` on a loss-free transport. */
  ghost predicate TickTo(s: Setup, plan: Plan, c: T.Config, before: Live, tick: u32, halfway: Live, sent: Live,
      delivered: Live, after: Live) {
    && SendsTo(s, plan, c, Generated(s, plan, before, tick), tick, halfway, sent)
    && DeliversTo(s, c, sent, tick, delivered)
    && AdvancesTo(s, plan, delivered, tick, after)
  }

  lemma LaterSent(s: Setup, plan: Plan, live: Live, tick: nat)
    requires OnSchedule(s, plan, live, tick, tick, 0)
    ensures OnSchedule(s, plan, live, tick, tick + 1, 0)
  {
    hide PeerIsGood, GoodLetter, OnTime, HeardFrom, Timeline.Valid, Prompt, WellSent, Accounted, Genuine, Deadline,
         QueueOnTime;
  }

  lemma GeneratedIsReady(s: Setup, plan: Plan, live: Live, tick: nat)
    requires tick < HALF && Playable(s, plan) && Ready(s, plan, live, tick)
    ensures var after := Generated(s, plan, live, tick);
      && Counted(after.net, Min(tick + 1, plan.frames), Min(tick, plan.frames + plan.tail) + 1)
      && AllSent(after.net, Min(tick, plan.frames + plan.tail))
      && OnSchedule(s, plan, after, tick, tick + 1, 0)
  {
    hide OnSchedule, AllSent;
    var after := Generated(s, plan, live, tick);
    if tick < plan.frames {
      GenerateOnSchedule(s, plan, live, tick, A);
      GenerateOnSchedule(s, plan, live.(net := GeneratedBy(s, live.net, A)), tick, B);
      SentStaysSent(live.net, after.net, Min(tick, plan.frames + plan.tail));
    }
    LaterSent(s, plan, after, tick);
  }

  lemma SendMoves(s: Setup, c: T.Config, before: Live, p: PlayerId, tick: u32, after: Live)
    requires EnqueuedBy(s, c, before, p, tick, after)
    ensures before.net.wire <= after.net.wire && WasSent(after.net, Other(p), before.net.At(p).nextNumber)
    ensures after.net.At(Other(p)) == before.net.At(Other(p)) && after.net.At(p).history == before.net.At(p).history
    ensures after.net.At(p).nextNumber == before.net.At(p).nextNumber + 1
  {
    hide Encoded, MadePacket, T.CopyOf;
    var letter := Letter(Other(p), before.net.At(p).nextNumber, PacketFrom(s, before.net, p));
    assert letter in after.net.wire;
  }

  lemma SentIsOnSchedule(s: Setup, plan: Plan, c: T.Config, before: Live, tick: u32, halfway: Live, after: Live)
    requires tick < HALF && Playable(s, plan) && T.LongestDelay(c) == plan.delay
    requires Counted(before.net, Min(tick + 1, plan.frames), Min(tick, plan.frames + plan.tail) + 1)
    requires AllSent(before.net, Min(tick, plan.frames + plan.tail)) && OnSchedule(s, plan, before, tick, tick + 1, 0)
    requires SendsTo(s, plan, c, before, tick, halfway, after)
    ensures SentThrough(plan, after.net, tick + 1) && OnSchedule(s, plan, after, tick, tick + 1, 4)
  {
    hide OnSchedule, EnqueuedBy, Playable, WasSent;
    if tick < plan.frames + plan.tail {
      SendOnSchedule(s, plan, c, before, tick, A, 0, halfway);
      SendMoves(s, c, before, A, tick, halfway);
      SendOnSchedule(s, plan, c, halfway, tick, B, 2, after);
      SendMoves(s, c, halfway, B, tick, after);
      SentStaysSent(before.net, after.net, Min(tick, plan.frames + plan.tail));
      NewestSent(halfway.net, after.net, B, tick + 1);
    } else {
      MoreSlack(s, plan, before, tick);
    }
  }

  lemma NewestSent(before: Net, after: Net, p: PlayerId, number: int)
    requires before.wire <= after.wire && WasSent(before, p, number)
    ensures WasSent(after, p, number)
  {
  }

  lemma MoreSlack(s: Setup, plan: Plan, live: Live, tick: nat)
    requires OnSchedule(s, plan, live, tick, tick + 1, 0)
    ensures OnSchedule(s, plan, live, tick, tick + 1, 4)
  {
    hide Good, InStep, WellSent, Accounted, Genuine, T.DistinctOrdinals;
  }

  lemma CleanDelivery(s: Setup, plan: Plan, c: T.Config, before: Live, tick: u32, halfway: Live, sent: Live)
    requires tick < HALF && Playable(s, plan) && Ample(c, plan)
    requires Ready(s, plan, before, tick) && SendsTo(s, plan, c, Generated(s, plan, before, tick), tick, halfway, sent)
    ensures SentThrough(plan, sent.net, tick + 1) && DeliversOnTime(s, plan, c, sent, tick)
  {
    hide OnSchedule, Playable, AllSent, Prompt, SendsTo, Generated, Good, Genuine, T.Swept, T.Arranged, DeliveredAll,
         DeliversOnTime;
    PlayableDelay(s, plan);
    GeneratedIsReady(s, plan, before, tick);
    SentIsOnSchedule(s, plan, c, Generated(s, plan, before, tick), tick, halfway, sent);
    FewerSent(sent.net, Min(tick + 1, plan.frames), Min(tick + 1, plan.frames + plan.tail));
    DeliverOnSchedule(s, plan, c, sent, tick);
  }

  /** Every tick of a loss-free run keeps it on schedule. */
  lemma TickOnSchedule(s: Setup, plan: Plan, c: T.Config, before: Live, tick: u32, halfway: Live, sent: Live,
      delivered: Live, after: Live)
    requires Ready(s, plan, before, tick) && Playable(s, plan) && Ample(c, plan) && tick < HALF
    requires TickTo(s, plan, c, before, tick, halfway, sent, delivered, after)
    ensures Ready(s, plan, after, tick + 1) && DeliversCleanly(s, c, sent, tick)
  {
    hide OnSchedule, Playable, AllSent, Prompt, SendsTo, Generated, Good, Genuine, T.Swept, T.Arranged, DeliveredAll,
         Deliverable;
    CleanDelivery(s, plan, c, before, tick, halfway, sent);
    SentStaysSent(sent.net, delivered.net, Min(tick + 1, plan.frames + plan.tail));
    if tick < plan.frames {
      AdvanceOnSchedule(s, plan, delivered, tick);
      SentStaysSent(delivered.net, after.net, Min(tick + 1, plan.frames + plan.tail));
    } else {
      IdleOnSchedule(s, plan, delivered, tick);
    }
  }

  lemma PlayableDelay(s: Setup, plan: Plan)
    requires Playable(s, plan)
    ensures 0 < plan.delay < WINDOW
  {
  }

  lemma FewerSent(net: Net, fewer: nat, sent: nat)
    requires AllSent(net, sent) && fewer <= sent
    ensures AllSent(net, fewer)
  {
    hide WasSent;
  }

  datatype Ticks = Ticks(halfway: Live, sent: Live, delivered: Live)

  ghost predicate Starts(s: Setup, plan: Plan, live: Live) {
    && Begins(s, live.net) && live.queue == []
    && live.net.a.nextNumber == live.net.b.nextNumber == 1
    && live.net.a.endpoint.session.config.maxRollback + 1 >= plan.delay + MAX_REDUNDANT_INPUTS
    && live.net.b.endpoint.session.config.maxRollback + 1 >= plan.delay + MAX_REDUNDANT_INPUTS
    && live.net.a.endpoint.session.config.maxRollback < CAPACITY
    && live.net.b.endpoint.session.config.maxRollback < CAPACITY
    && live.net.a.endpoint.window == live.net.b.endpoint.window == EMPTY
  }

  lemma PeerStartsInStep(s: Setup, plan: Plan, p: PlayerId, peer: Peer)
    requires PeerIsGood(s, p, peer) && Sound(s.initial) && peer.endpoint.window == EMPTY
    requires peer.endpoint.session == Start(peer.endpoint.session.config)
    requires plan.delay + MAX_REDUNDANT_INPUTS <= peer.endpoint.session.config.maxRollback + 1
    requires peer.endpoint.session.config.maxRollback < CAPACITY
    ensures InStep(s, plan, p, peer, 0, 0)
  {
    hide Story, Sound, Timeline.Valid, Honest, Carried;
    StartStory(peer.endpoint.session.config, TruthFor(s, p));
    assert HeardFrom(s, plan, {}) == {};
  }

  lemma StartIsReady(s: Setup, plan: Plan, live: Live)
    requires Starts(s, plan, live)
    ensures Ready(s, plan, live, 0)
  {
    hide PeerIsGood, InStep, Sound, GoodLetter;
    BeginningIsGood(s, live.net);
    PeerStartsInStep(s, plan, A, live.net.a);
    PeerStartsInStep(s, plan, B, live.net.b);
  }

  ghost predicate LockstepRun(s: Setup, plan: Plan, c: T.Config, lives: seq<Live>, ticks: seq<Ticks>) {
    && |lives| == |ticks| + 1 && |ticks| < HALF && Starts(s, plan, lives[0])
    && forall i :: 0 <= i < |ticks| ==>
         TickTo(s, plan, c, lives[i], i, ticks[i].halfway, ticks[i].sent, ticks[i].delivered, lives[i + 1])
  }

  lemma {:induction false} RunsStayOnSchedule(s: Setup, plan: Plan, c: T.Config, lives: seq<Live>, ticks: seq<Ticks>,
      i: nat)
    requires LockstepRun(s, plan, c, lives, ticks) && Playable(s, plan) && Ample(c, plan) && i < |lives|
    ensures Ready(s, plan, lives[i], i) && (i > 0 ==> DeliversCleanly(s, c, ticks[i - 1].sent, i - 1))
  {
    hide Ready, TickTo, Starts, Playable, Ample, DeliversCleanly;
    if i == 0 {
      StartIsReady(s, plan, lives[0]);
    } else {
      RunsStayOnSchedule(s, plan, c, lives, ticks, i - 1);
      TickOnSchedule(s, plan, c, lives[i - 1], i - 1, ticks[i - 1].halfway, ticks[i - 1].sent, ticks[i - 1].delivered,
        lives[i]);
    }
  }

  /** Confirmed at the target, with the world of the direct fold and no rollback deeper than the longest delay. */
  ghost predicate Converged(s: Setup, plan: Plan, p: PlayerId, peer: Peer) {
    var t := peer.endpoint.session;
    && t.Valid() && t.confirmed == t.Now() == s.Base() + plan.frames
    && t.State() == PairFold(s, s.VariantOf(p), plan.frames)
    && t.dirty.None? && t.counters.deepest <= plan.lag
    && (s.variantA == s.variantB ==> peer.endpoint.diagnostic.None?)
  }

  lemma PeerConverges(s: Setup, plan: Plan, p: PlayerId, peer: Peer, tick: nat, sent: nat)
    requires InStep(s, plan, p, peer, tick, sent) && plan.frames + plan.lag <= tick
    ensures Converged(s, plan, p, peer)
  {
    hide Timeline.Valid, Honest, Worlds, TrueWorld, PairFold, OnTime, HeardFrom;
    var t := peer.endpoint.session;
    InStepConverges(s, plan, p, peer, tick, sent);
    SessionIsValid(s, p, peer);
    ConfirmedWorldIsTrue(t, TruthFor(s, p), t.Now());
    TrueWorldIsPairFold(s, p, t, plan.frames);
  }

  /**
   * With zero loss and enough queue, bandwidth and age, a run whose packets take at most
   * D = base + 2 * jitter + 2 <= min(63, tail + 32) ticks never fails a delivery and ends with both peers confirmed at
   * the last frame, having rolled back at most D frames at a time; peers of one variant are in the same state.
   */
  lemma LossFreeRunsConverge(s: Setup, plan: Plan, c: T.Config, lives: seq<Live>, ticks: seq<Ticks>)
    requires LockstepRun(s, plan, c, lives, ticks) && Playable(s, plan) && Ample(c, plan)
    requires |ticks| == plan.frames + plan.tail + 32
    ensures forall i :: 0 <= i < |ticks| ==> DeliversCleanly(s, c, ticks[i].sent, i)
    ensures var net := lives[|ticks|].net;
      && Converged(s, plan, A, net.a) && Converged(s, plan, B, net.b)
      && (s.variantA == s.variantB ==>
            HashCanonical(net.a.endpoint.session.State()) == HashCanonical(net.b.endpoint.session.State()))
  {
    hide LockstepRun, Playable, DeliversCleanly, InStep, HashCanonical, PairFold;
    RunLength(s, plan, c, lives, ticks);
    forall i | 0 <= i < |ticks| ensures DeliversCleanly(s, c, ticks[i].sent, i) {
      RunsStayOnSchedule(s, plan, c, lives, ticks, i + 1);
    }
    RunsStayOnSchedule(s, plan, c, lives, ticks, |ticks|);
    PeerConverges(s, plan, A, lives[|ticks|].net.a, |ticks|, |ticks|);
    PeerConverges(s, plan, B, lives[|ticks|].net.b, |ticks|, |ticks|);
  }

  lemma RunLength(s: Setup, plan: Plan, c: T.Config, lives: seq<Live>, ticks: seq<Ticks>)
    requires LockstepRun(s, plan, c, lives, ticks)
    ensures |lives| == |ticks| + 1 && |ticks| < HALF
  {
    hide TickTo, Starts;
  }
}
