/**
 * Lock-step runs over a network that may lose packets (`step_once` of src/report/scenario_runner.cpp): the 32 inputs
 * each packet repeats are enough for convergence as long as every frame gets through in one of the packets that
 * carry it.
 */
module Redundancies {
  import opened Core
  import opened FrameRings
  import opened Simulation
  import opened SimulationLaws
  import opened Timelines
  import opened SequenceWindows
  import opened Codec
  import opened Exchange
  import opened Protocol
  import opened Convergence
  import opened Lockstep
  import T = Transport

  /** One tick: the net once both packets are sent, the letters that then arrive in order, and the net after them. */
  datatype Arrivals = Arrivals(sent: Net, letters: seq<Letter>, delivered: Net)

  ghost predicate OnWire(s: Setup, net: Net, letters: seq<Letter>) {
    Good(s, net) && forall letter :: letter in letters ==> letter in net.wire
  }

  /** Arrivals in order; the first error stops with everything before it already processed. */
  ghost function ArrivedAll(s: Setup, net: Net, letters: seq<Letter>): (r: (Net, Option<ErrorCode>))
    requires OnWire(s, net, letters)
    ensures Good(s, r.0) && r.0.wire == net.wire
    decreases |letters|
  {
    hide Good, DeliveredOne, Processed;
    if letters == [] then (net, None)
    else
      var letter := letters[0];
      LetterIsDeliverable(s, net, letter);
      var after := DeliveredOne(s, net, letter);
      var error := Processed(net.At(letter.to).endpoint, letter.packet, letter.number, s.scenario).1;
      if error.Some? then (after, error) else ArrivedAll(s, after, letters[1..])
  }

  /** No arrival of the tick fails: the rollback window is never exceeded. */
  ghost predicate ArrivesCleanly(s: Setup, m: Arrivals) {
    OnWire(s, m.sent, m.letters) && ArrivedAll(s, m.sent, m.letters).1.None?
  }

  ghost function Played(s: Setup, plan: Plan, net: Net, tick: nat): Net {
    if tick < plan.frames then GeneratedBy(s, GeneratedBy(s, net, A), B) else net
  }

  ghost predicate SendsOut(s: Setup, plan: Plan, before: Net, tick: nat, after: Net) {
    if tick < plan.frames + plan.tail then BothSent(s, before, after) else after == before
  }

  /** What gets through was sent at most `delay` ticks ago. */
  ghost predicate Swift(plan: Plan, tick: nat, m: Arrivals) {
    forall letter :: letter in m.letters ==> tick + 1 - plan.delay <= letter.number
  }

  /** Anything that was ever sent may get through, any number of times, or be lost. */
  ghost predicate Arrives(s: Setup, plan: Plan, before: Net, tick: nat, m: Arrivals) {
    && SendsOut(s, plan, Played(s, plan, before, tick), tick, m.sent)
    && OnWire(s, m.sent, m.letters)
    && m.delivered == ArrivedAll(s, m.sent, m.letters).0
  }

  ghost predicate LossyTick(s: Setup, plan: Plan, before: Net, tick: nat, m: Arrivals, after: Net) {
    && Arrives(s, plan, before, tick, m)
    && (if tick < plan.frames then
          m.delivered.a.endpoint.session.Valid() && m.delivered.b.endpoint.session.Valid()
          && after == AdvancedBoth(s, m.delivered)
        else
          after == m.delivered)
  }

  // ---- A live transport is one such network ----

  ghost function Letters(qs: seq<T.Scheduled>): (r: seq<Letter>)
    requires forall q :: q in qs ==> Decoded(q.bytes).Ok?
    ensures |r| == |qs| && forall i :: 0 <= i < |r| ==> r[i] == LetterOf(qs[i])
  {
    hide Decoded;
    seq(|qs|, i requires 0 <= i < |qs| => LetterOf(qs[i]))
  }

  lemma DeliverableLetters(s: Setup, net: Net, qs: seq<T.Scheduled>)
    requires Deliverable(s, net, qs)
    ensures (forall q :: q in qs ==> Decoded(q.bytes).Ok?) && OnWire(s, net, Letters(qs))
  {
    hide Good, Decoded;
    forall q | q in qs ensures Decoded(q.bytes).Ok? && LetterOf(q) in net.wire {
      assert Genuine(net, q);
    }
    forall letter | letter in Letters(qs) ensures letter in net.wire {
      var i :| 0 <= i < |qs| && Letters(qs)[i] == letter;
      assert qs[i] in qs;
    }
  }

  lemma {:induction false} DeliveriesAreArrivals(s: Setup, net: Net, qs: seq<T.Scheduled>)
    requires Deliverable(s, net, qs)
    ensures (forall q :: q in qs ==> Decoded(q.bytes).Ok?) && OnWire(s, net, Letters(qs))
    ensures DeliveredAll(s, net, qs) == ArrivedAll(s, net, Letters(qs))
    decreases |qs|
  {
    hide Good, Decoded, DeliveredOne, Processed, Genuine;
    DeliverableLetters(s, net, qs);
    if qs != [] {
      assert Genuine(net, qs[0]);
      var after := DeliveredOne(s, net, LetterOf(qs[0]));
      FirstOrRest(qs);
      SameWire(net, after, qs[1..]);
      DeliveriesAreArrivals(s, after, qs[1..]);
      assert Letters(qs)[1..] == Letters(qs[1..]);
    }
  }

  /** The arrivals of a live tick: what the transport delivers, in its order. */
  ghost function Arrived(s: Setup, c: T.Config, sent: Live, tick: u32, delivered: Live): Arrivals
    requires DeliversTo(s, c, sent, tick, delivered)
  {
    var swept := T.Swept(c, tick, c.bandwidth, T.Arranged(sent.queue));
    DeliverableLetters(s, sent.net, swept.delivered);
    Arrivals(sent.net, Letters(swept.delivered), delivered.net)
  }

  /** Whatever the transport drops, delays or repeats, a tick of the live run is a tick over a lossy network. */
  lemma LiveTickIsLossy(s: Setup, plan: Plan, c: T.Config, before: Net, tick: u32, sent: Live, delivered: Live)
    requires SendsOut(s, plan, Played(s, plan, before, tick), tick, sent.net) && DeliversTo(s, c, sent, tick, delivered)
    ensures var m := Arrived(s, c, sent, tick, delivered);
      && (ArrivesCleanly(s, m) <==> DeliversCleanly(s, c, sent, tick))
      && (ArrivesCleanly(s, m) || FailingTick(s, plan, before, tick, m))
      && forall after: Live :: AdvancesTo(s, plan, delivered, tick, after) ==>
           LossyTick(s, plan, before, tick, m, after.net)
  {
    hide Good, Decoded, T.Swept, T.Arranged, SendsOut, DeliveredAll, ArrivedAll, AdvancedBoth, Genuine, Timeline.Valid;
    DeliveriesAreArrivals(s, sent.net, T.Swept(c, tick, c.bandwidth, T.Arranged(sent.queue)).delivered);
  }

  // ---- Runs ----

  /** The tick sends its packets, and then an arrival fails. */
  ghost predicate FailingTick(s: Setup, plan: Plan, before: Net, tick: nat, m: Arrivals) {
    Arrives(s, plan, before, tick, m) && !ArrivesCleanly(s, m)
  }

  ghost predicate LossyRun(s: Setup, plan: Plan, nets: seq<Net>, ticks: seq<Arrivals>) {
    && |nets| == |ticks| + 1 && |ticks| < HALF && StartsOut(s, plan, nets[0])
    && forall i :: 0 <= i < |ticks| ==>
         LossyTick(s, plan, nets[i], i, ticks[i], nets[i + 1]) && Swift(plan, i, ticks[i])
  }

  ghost predicate StartsOut(s: Setup, plan: Plan, net: Net) {
    && Begins(s, net) && net.a.nextNumber == net.b.nextNumber == 1
    && net.a.endpoint.window == net.b.endpoint.window == EMPTY
    && StartsWithin(plan, net.a.endpoint.session) && StartsWithin(plan, net.b.endpoint.session)
  }

  /** The rollback window covers the oldest input of the slowest packet. */
  ghost predicate StartsWithin(plan: Plan, t: Timeline) {
    plan.delay + MAX_REDUNDANT_INPUTS <= t.config.maxRollback + 1 && t.config.maxRollback < CAPACITY
  }

  // ---- What a run keeps ----

  /** Both peers on schedule after `tick` ticks, and every letter a window of the script. */
  ghost predicate OnCourse(s: Setup, plan: Plan, net: Net, tick: nat, sent: nat) {
    && BothInStep(s, plan, net, tick, sent)
    && forall letter :: letter in net.wire ==> WellSent(s, plan, letter) && letter.number <= sent
  }

  /** Histories and sequence counters after `ticks` ticks. */
  ghost predicate Counts(plan: Plan, net: Net, ticks: nat) {
    Counted(net, Min(ticks, plan.frames), Min(ticks, plan.frames + plan.tail) + 1)
  }

  ghost predicate HasTaken(net: Net, letters: seq<Letter>) {
    forall letter :: letter in letters ==> letter.number in net.At(letter.to).endpoint.window.accepted
  }

  ghost predicate Remembers(before: Net, after: Net) {
    && before.a.endpoint.window.accepted <= after.a.endpoint.window.accepted
    && before.b.endpoint.window.accepted <= after.b.endpoint.window.accepted
  }

  lemma {:induction false} ArrivalsOnCourse(s: Setup, plan: Plan, net: Net, letters: seq<Letter>, tick: nat)
    requires BothInStep(s, plan, net, tick, tick + 1) && 0 < plan.delay < WINDOW && OnWire(s, net, letters)
    requires forall letter :: letter in letters ==> Arriving(s, plan, letter, tick)
    ensures var (after, error) := ArrivedAll(s, net, letters);
      && error.None? && BothInStep(s, plan, after, tick, tick + 1) && Progressed(net, after)
      && HasTaken(after, letters)
    decreases |letters|
  {
    hide InStep, Good, Processed, Arriving, DeliveredOne;
    if letters != [] {
      var letter := letters[0];
      FirstOrRest(letters);
      DeliverOneOnSchedule(s, plan, net, letter, tick);
      ArrivalsOnCourse(s, plan, DeliveredOne(s, net, letter), letters[1..], tick);
    }
  }

  lemma MoreSent(s: Setup, plan: Plan, net: Net, tick: nat)
    requires OnCourse(s, plan, net, tick, tick)
    ensures OnCourse(s, plan, net, tick, tick + 1)
  {
    hide PeerIsGood, GoodLetter, OnTime, HeardFrom, WellSent, Deadline, Timeline.Valid;
  }

  lemma PlayOnCourse(s: Setup, plan: Plan, net: Net, tick: nat, p: PlayerId)
    requires OnCourse(s, plan, net, tick, tick + 1) && |net.At(p).history| + 1 < HALF
    ensures OnCourse(s, plan, GeneratedBy(s, net, p), tick, tick + 1)
  {
    hide PeerIsGood, GoodLetter, OnTime, HeardFrom, WellSent, Deadline, Timeline.Valid;
    GenerateIsGood(s, p, net.At(p));
  }

  lemma SendOnCourse(s: Setup, plan: Plan, net: Net, tick: nat, p: PlayerId)
    requires OnCourse(s, plan, net, tick, tick + 1) && FiveBit(s) && 0 < plan.frames
    requires |net.At(p).history| == Min(tick + 1, plan.frames) && net.At(p).nextNumber == tick + 1
    ensures var t := net.At(p).endpoint.session; |t.used| == |t.local|
    ensures OnCourse(s, plan, SentBy(s, net, p), tick, tick + 1)
  {
    hide PeerIsGood, GoodLetter, OnTime, HeardFrom, WellSent, Deadline, Timeline.Valid, Encoded, Decoded, MadePacket,
         FiveBit;
    SentPacketEncodes(s, plan, net, tick, p);
    SentLetterIsGood(s, p, net.At(p));
    SendIsGood(s, p, net.At(p));
  }

  lemma OutOnCourse(s: Setup, plan: Plan, before: Net, tick: nat, after: Net)
    requires OnCourse(s, plan, before, tick, tick) && Playable(s, plan) && tick < HALF - 1
    requires Counts(plan, before, tick)
    requires SendsOut(s, plan, Played(s, plan, before, tick), tick, after)
    ensures OnCourse(s, plan, after, tick, tick + 1) && Remembers(before, after)
    ensures Counts(plan, after, tick + 1)
  {
    hide OnCourse, FiveBit, MadePacket;
    MoreSent(s, plan, before, tick);
    var played := Played(s, plan, before, tick);
    if tick < plan.frames {
      PlayOnCourse(s, plan, before, tick, A);
      PlayOnCourse(s, plan, GeneratedBy(s, before, A), tick, B);
    }
    if tick < plan.frames + plan.tail {
      SendOnCourse(s, plan, played, tick, A);
      SendOnCourse(s, plan, SentBy(s, played, A), tick, B);
    }
  }

  lemma LettersArrive(s: Setup, plan: Plan, net: Net, tick: nat, letters: seq<Letter>)
    requires OnCourse(s, plan, net, tick, tick + 1) && OnWire(s, net, letters)
    requires forall letter :: letter in letters ==> tick + 1 - plan.delay <= letter.number
    ensures forall letter :: letter in letters ==> Arriving(s, plan, letter, tick)
  {
    hide BothInStep, Good, WellSent;
  }

  lemma AdvanceOnCourse(s: Setup, plan: Plan, net: Net, tick: nat)
    requires BothInStep(s, plan, net, tick, tick + 1) && Playable(s, plan) && tick < plan.frames
    requires Prompt(s, plan, net.a.endpoint.window.accepted, tick + 1)
    requires Prompt(s, plan, net.b.endpoint.window.accepted, tick + 1)
    ensures net.a.endpoint.session.Valid() && net.b.endpoint.session.Valid()
    ensures var after := AdvancedBoth(s, net);
      && BothInStep(s, plan, after, tick + 1, tick + 1) && Remembers(net, after) && after.wire == net.wire
      && after.a.history == net.a.history && after.b.history == net.b.history
      && after.a.nextNumber == net.a.nextNumber && after.b.nextNumber == net.b.nextNumber
  {
    hide InStep, Prompt, Timeline.Valid, Timeline.Advanced, GoodLetter, PeerIsGood, Timeline.HasRoom;
    HasRoomToAdvance(s, plan, A, net.a, tick, tick + 1);
    HasRoomToAdvance(s, plan, B, net.b, tick, tick + 1);
    AdvanceInStep(s, plan, A, net.a, tick);
    AdvanceInStep(s, plan, B, net.b, tick);
    InStepIsGood(s, plan, A, AdvancedBoth(s, net).a, tick + 1, tick + 1);
    InStepIsGood(s, plan, B, AdvancedBoth(s, net).b, tick + 1, tick + 1);
  }

  /** The arrivals of a tick cannot fail, and each arriving number is remembered. */
  lemma TickArrives(s: Setup, plan: Plan, before: Net, tick: nat, m: Arrivals)
    requires OnCourse(s, plan, before, tick, tick) && Playable(s, plan) && tick < HALF - 1
    requires Counts(plan, before, tick)
    requires Arrives(s, plan, before, tick, m) && Swift(plan, tick, m)
    ensures ArrivesCleanly(s, m)
    ensures BothInStep(s, plan, m.delivered, tick, tick + 1) && m.delivered.wire == m.sent.wire
    ensures Remembers(before, m.delivered) && HasTaken(m.delivered, m.letters)
    ensures Counts(plan, m.delivered, tick + 1)
    ensures forall letter :: letter in m.sent.wire ==> WellSent(s, plan, letter) && letter.number <= tick + 1
  {
    hide InStep, Good, WellSent, FiveBit, SendsOut, Played, ArrivedAll, HasTaken, Arriving;
    OutOnCourse(s, plan, before, tick, m.sent);
    LettersArrive(s, plan, m.sent, tick, m.letters);
    ArrivalsOnCourse(s, plan, m.sent, m.letters, tick);
  }

  lemma TickOnCourse(s: Setup, plan: Plan, before: Net, tick: nat, m: Arrivals, after: Net)
    requires OnCourse(s, plan, before, tick, tick) && Playable(s, plan) && tick < HALF - 1
    requires Counts(plan, before, tick)
    requires LossyTick(s, plan, before, tick, m, after) && Swift(plan, tick, m)
    requires Prompt(s, plan, m.delivered.a.endpoint.window.accepted, tick + 1)
    requires Prompt(s, plan, m.delivered.b.endpoint.window.accepted, tick + 1)
    ensures OnCourse(s, plan, after, tick + 1, tick + 1) && Remembers(m.delivered, after)
    ensures Counts(plan, after, tick + 1)
  {
    hide InStep, Good, WellSent, FiveBit, SendsOut, Played, ArrivedAll, HasTaken, Prompt, AdvancedBoth;
    TickArrives(s, plan, before, tick, m);
    if tick < plan.frames {
      AdvanceOnCourse(s, plan, m.delivered, tick);
    } else {
      IdleInStep(s, plan, A, after.a, tick);
      IdleInStep(s, plan, B, after.b, tick);
    }
  }

  // ---- Whole runs ----

  /** Frame `k` gets through to `p` within `lag` ticks, in some packet that carries it. */
  ghost predicate Reaches(s: Setup, plan: Plan, ticks: seq<Arrivals>, p: PlayerId, k: nat) {
    exists i: nat, letter: Letter ::
      i < |ticks| && i <= k + plan.lag && letter in ticks[i].letters && letter.to == p && letter.number >= 0
      && s.Base() + k in Carried(s, plan, letter.number)
  }

  /** Every frame whose time is up by the last of these ticks has got through to both peers. */
  ghost predicate ReachesInTime(s: Setup, plan: Plan, ticks: seq<Arrivals>) {
    forall p, k: nat :: k < plan.frames && k + plan.lag < |ticks| ==> Reaches(s, plan, ticks, p, k)
  }

  ghost predicate HasTakenAll(net: Net, ticks: seq<Arrivals>, n: nat)
    requires n <= |ticks|
  {
    forall i :: 0 <= i < n ==> HasTaken(net, ticks[i].letters)
  }

  lemma StillTaken(before: Net, after: Net, ticks: seq<Arrivals>, n: nat)
    requires n <= |ticks| && HasTakenAll(before, ticks, n) && Remembers(before, after)
    ensures HasTakenAll(after, ticks, n)
  {
    forall i | 0 <= i < n ensures HasTaken(after, ticks[i].letters) {
      assert HasTaken(before, ticks[i].letters);
    }
  }

  lemma TakenOneMore(net: Net, ticks: seq<Arrivals>, n: nat)
    requires n < |ticks| && HasTakenAll(net, ticks, n) && HasTaken(net, ticks[n].letters)
    ensures HasTakenAll(net, ticks, n + 1)
  {
    hide HasTaken;
  }

  lemma ReachedIsPrompt(s: Setup, plan: Plan, net: Net, ticks: seq<Arrivals>, p: PlayerId, tick: nat)
    requires tick < |ticks| && HasTakenAll(net, ticks, tick + 1) && ReachesInTime(s, plan, ticks)
    ensures Prompt(s, plan, net.At(p).endpoint.window.accepted, tick + 1)
  {
    hide Carried;
    forall frame | s.Base() <= frame < Deadline(s, plan, tick + 1)
      ensures frame in HeardFrom(s, plan, net.At(p).endpoint.window.accepted)
    {
      var k: nat := frame - s.Base();
      assert Reaches(s, plan, ticks, p, k);
      var i: nat, letter: Letter :| i < |ticks| && i <= k + plan.lag && letter in ticks[i].letters && letter.to == p
        && letter.number >= 0 && s.Base() + k in Carried(s, plan, letter.number);
      assert HasTaken(net, ticks[i].letters);
    }
  }

  /** The state of a run after `i` ticks. */
  ghost predicate Proceeds(s: Setup, plan: Plan, nets: seq<Net>, ticks: seq<Arrivals>, i: nat) {
    && i < |nets| == |ticks| + 1 && OnCourse(s, plan, nets[i], i, i) && HasTakenAll(nets[i], ticks, i)
    && Counts(plan, nets[i], i)
  }

  lemma RunsStart(s: Setup, plan: Plan, net: Net)
    requires StartsOut(s, plan, net)
    ensures OnCourse(s, plan, net, 0, 0) && Counts(plan, net, 0)
  {
    hide PeerIsGood, InStep, Sound, GoodLetter;
    BeginningIsGood(s, net);
    PeerStartsInStep(s, plan, A, net.a);
    PeerStartsInStep(s, plan, B, net.b);
  }

  lemma LossyTickArrives(s: Setup, plan: Plan, before: Net, tick: nat, m: Arrivals, after: Net)
    requires LossyTick(s, plan, before, tick, m, after)
    ensures Arrives(s, plan, before, tick, m)
  {
    hide Arrives, AdvancedBoth, Timeline.Valid;
  }

  lemma RunProceeds(s: Setup, plan: Plan, nets: seq<Net>, ticks: seq<Arrivals>, i: nat)
    requires LossyRun(s, plan, nets, ticks) && Playable(s, plan) && i < |ticks| && Proceeds(s, plan, nets, ticks, i)
    requires ReachesInTime(s, plan, ticks)
    ensures Proceeds(s, plan, nets, ticks, i + 1)
    ensures ArrivesCleanly(s, ticks[i])
  {
    hide OnCourse, Playable, ReachesInTime, HasTaken, HasTakenAll, Prompt, BothInStep, Counts, WellSent, ArrivesCleanly,
         LossyTick, Arrives, StartsOut, Remembers;
    var m := ticks[i];
    assert LossyTick(s, plan, nets[i], i, m, nets[i + 1]) && Swift(plan, i, m);
    LossyTickArrives(s, plan, nets[i], i, m, nets[i + 1]);
    TickArrives(s, plan, nets[i], i, m);
    StillTaken(nets[i], m.delivered, ticks, i);
    TakenOneMore(m.delivered, ticks, i);
    ReachedIsPrompt(s, plan, m.delivered, ticks, A, i);
    ReachedIsPrompt(s, plan, m.delivered, ticks, B, i);
    TickOnCourse(s, plan, nets[i], i, m, nets[i + 1]);
    StillTaken(m.delivered, nets[i + 1], ticks, i + 1);
  }

  lemma {:induction false} RunsProceed(s: Setup, plan: Plan, nets: seq<Net>, ticks: seq<Arrivals>, i: nat)
    requires LossyRun(s, plan, nets, ticks) && Playable(s, plan) && i < |nets| && ReachesInTime(s, plan, ticks)
    ensures Proceeds(s, plan, nets, ticks, i)
    ensures forall j :: 0 <= j < i ==> ArrivesCleanly(s, ticks[j])
  {
    hide OnCourse, Playable, ReachesInTime, HasTaken, LossyTick, StartsOut, Counts, ArrivesCleanly;
    if i == 0 {
      RunsStart(s, plan, nets[0]);
    } else {
      RunsProceed(s, plan, nets, ticks, i - 1);
      RunProceeds(s, plan, nets, ticks, i - 1);
    }
  }

  /**
   * Convergence under loss: when every frame reaches each peer within `lag` ticks in any packet that carries it, no
   * delivery ever fails and both peers end confirmed at the last frame, having rolled back at most `lag` frames at a
   * time.
   */
  lemma RedundantRunsConverge(s: Setup, plan: Plan, nets: seq<Net>, ticks: seq<Arrivals>)
    requires LossyRun(s, plan, nets, ticks) && Playable(s, plan)
    requires |ticks| == plan.frames + plan.tail + 32 && plan.lag <= plan.tail + 32 && ReachesInTime(s, plan, ticks)
    ensures forall i :: 0 <= i < |ticks| ==> ArrivesCleanly(s, ticks[i])
    ensures |nets| == |ticks| + 1
    ensures Converged(s, plan, A, nets[|ticks|].a) && Converged(s, plan, B, nets[|ticks|].b)
  {
    hide Playable, ReachesInTime, InStep, Good, ArrivesCleanly, LossyTick, HasTakenAll, WellSent, Converged;
    RunsProceed(s, plan, nets, ticks, |ticks|);
    PeerConverges(s, plan, A, nets[|ticks|].a, |ticks|, |ticks|);
    PeerConverges(s, plan, B, nets[|ticks|].b, |ticks|, |ticks|);
  }

  // ---- Bursts of loss ----

  /** Some packet numbered `n` .. `n + 31` gets through to `p`. */
  ghost predicate GetsThrough(ticks: seq<Arrivals>, p: PlayerId, n: nat) {
    exists i: nat, letter: Letter ::
      i < |ticks| && letter in ticks[i].letters && letter.to == p && n <= letter.number < n + MAX_REDUNDANT_INPUTS
  }

  lemma BurstsReach(s: Setup, plan: Plan, ticks: seq<Arrivals>, nets: seq<Net>, p: PlayerId, k: nat)
    requires LossyRun(s, plan, nets, ticks) && plan.lag == plan.delay + MAX_REDUNDANT_INPUTS - 1 && k < plan.frames
    requires GetsThrough(ticks, p, k + 1)
    ensures Reaches(s, plan, ticks, p, k)
  {
    hide StartsOut, SendsOut, OnWire, ArrivedAll, Played, AdvancedBoth, Timeline.Valid;
    var i: nat, letter: Letter :| i < |ticks| && letter in ticks[i].letters && letter.to == p
      && k + 1 <= letter.number < k + 1 + MAX_REDUNDANT_INPUTS;
    assert LossyTick(s, plan, nets[i], i, ticks[i], nets[i + 1]) && Swift(plan, i, ticks[i]);
    assert s.Base() + k in Carried(s, plan, letter.number);
  }

  /** Of every 32 consecutive packets to a peer whose time is up by the last of these ticks, one has got through. */
  ghost predicate ShortBursts(plan: Plan, ticks: seq<Arrivals>) {
    forall p, n: nat :: 1 <= n <= plan.frames && n - 1 + plan.lag < |ticks| ==> GetsThrough(ticks, p, n)
  }

  lemma ShortBurstsReach(s: Setup, plan: Plan, nets: seq<Net>, ticks: seq<Arrivals>)
    requires LossyRun(s, plan, nets, ticks) && plan.lag == plan.delay + MAX_REDUNDANT_INPUTS - 1
    requires ShortBursts(plan, ticks)
    ensures ReachesInTime(s, plan, ticks)
  {
    hide LossyTick, Reaches, GetsThrough, StartsOut;
    forall p, k: nat | k < plan.frames && k + plan.lag < |ticks| ensures Reaches(s, plan, ticks, p, k) {
      assert GetsThrough(ticks, p, k + 1);
      BurstsReach(s, plan, ticks, nets, p, k);
    }
  }

  /**
   * Any loss short of 32 packets in a row is survived: when of every 32 consecutive packets to a peer at least one gets
   * through within `delay` ticks, with a tail of at least 31 resending ticks and `delay` at most tail + 1, both peers
   * converge.
   */
  lemma ShortBurstsConverge(s: Setup, plan: Plan, nets: seq<Net>, ticks: seq<Arrivals>)
    requires LossyRun(s, plan, nets, ticks) && Playable(s, plan) && |ticks| == plan.frames + plan.tail + 32
    requires plan.lag == plan.delay + MAX_REDUNDANT_INPUTS - 1 <= plan.tail + 32
    requires forall p, n: nat :: 1 <= n && n + MAX_REDUNDANT_INPUTS - 1 <= plan.frames + plan.tail ==>
      GetsThrough(ticks, p, n)
    requires MAX_REDUNDANT_INPUTS - 1 <= plan.tail
    ensures |nets| == |ticks| + 1
    ensures Converged(s, plan, A, nets[|ticks|].a) && Converged(s, plan, B, nets[|ticks|].b)
  {
    hide LossyTick, Playable, GetsThrough, StartsOut, Converged, ReachesInTime;
    assert ShortBursts(plan, ticks);
    ShortBurstsReach(s, plan, nets, ticks);
    RedundantRunsConverge(s, plan, nets, ticks);
  }

  // ---- What a live run leaves behind ----

  /** The net before each tick and after the last, what arrived in each, and the tick an arrival failed in, if any. */
  datatype Trace = Trace(nets: seq<Net>, ticks: seq<Arrivals>, failing: Option<Arrivals>)

  /** `trace` is a run over a lossy network, up to its end or to the first failing arrival. */
  ghost predicate Traced(s: Setup, plan: Plan, trace: Trace) {
    && |trace.nets| == |trace.ticks| + 1 <= plan.frames + plan.tail + 33
    && (forall i :: 0 <= i < |trace.ticks| ==>
          LossyTick(s, plan, trace.nets[i], i, trace.ticks[i], trace.nets[i + 1]))
    && (trace.failing.Some? ==>
          FailingTick(s, plan, trace.nets[|trace.ticks|], |trace.ticks|, trace.failing.value))
  }

  /** Nothing got through later than `delay` ticks after it was sent. */
  ghost predicate Swiftly(s: Setup, plan: Plan, trace: Trace) {
    && Playable(s, plan) && plan.lag <= plan.tail + 32
    && (forall i :: 0 <= i < |trace.ticks| ==> Swift(plan, i, trace.ticks[i]))
    && (trace.failing.Some? ==> Swift(plan, |trace.ticks|, trace.failing.value))
  }

  /** The network was good enough: swift, and every frame got through within `lag` ticks in some packet that has it. */
  ghost predicate Endures(s: Setup, plan: Plan, trace: Trace) {
    Swiftly(s, plan, trace) && ReachesInTime(s, plan, trace.ticks)
  }

  lemma TracedOneMore(s: Setup, plan: Plan, trace: Trace, m: Arrivals, after: Net)
    requires Traced(s, plan, trace) && trace.failing.None? && |trace.ticks| < plan.frames + plan.tail + 32
    requires LossyTick(s, plan, trace.nets[|trace.ticks|], |trace.ticks|, m, after)
    ensures Traced(s, plan, Trace(trace.nets + [after], trace.ticks + [m], None))
  {
    hide LossyTick;
    var nets, ticks := trace.nets + [after], trace.ticks + [m];
    forall i | 0 <= i < |ticks| ensures LossyTick(s, plan, nets[i], i, ticks[i], nets[i + 1]) {
      if i < |trace.ticks| {
        assert LossyTick(s, plan, trace.nets[i], i, trace.ticks[i], trace.nets[i + 1]);
      }
    }
  }

  lemma SameTicks(s: Setup, plan: Plan, other: Plan, before: Net, tick: nat, m: Arrivals)
    requires plan.frames == other.frames && plan.tail == other.tail
    ensures FailingTick(s, plan, before, tick, m) <==> FailingTick(s, other, before, tick, m)
    ensures forall after :: LossyTick(s, plan, before, tick, m, after) <==> LossyTick(s, other, before, tick, m, after)
    ensures Arrives(s, plan, before, tick, m) <==> Arrives(s, other, before, tick, m)
  {
    hide BothSent, OnWire, ArrivedAll, AdvancedBoth, Timeline.Valid, ArrivesCleanly;
  }

  lemma TraceIsLossyRun(s: Setup, schedule: Plan, plan: Plan, trace: Trace)
    requires Traced(s, schedule, trace) && Swiftly(s, plan, trace) && StartsOut(s, plan, trace.nets[0])
    requires plan.frames == schedule.frames && plan.tail == schedule.tail
    ensures LossyRun(s, plan, trace.nets, trace.ticks)
  {
    hide LossyTick, StartsOut, FiveBit, FailingTick;
    forall i | 0 <= i < |trace.ticks|
      ensures LossyTick(s, plan, trace.nets[i], i, trace.ticks[i], trace.nets[i + 1])
    {
      SameTicks(s, schedule, plan, trace.nets[i], i, trace.ticks[i]);
    }
  }

  /** A swift network is good enough if it never loses 32 packets in a row. */
  lemma ShortBurstsEndure(s: Setup, schedule: Plan, plan: Plan, trace: Trace)
    requires Traced(s, schedule, trace) && Swiftly(s, plan, trace) && StartsOut(s, plan, trace.nets[0])
    requires plan.frames == schedule.frames && plan.tail == schedule.tail
    requires plan.lag == plan.delay + MAX_REDUNDANT_INPUTS - 1 && ShortBursts(plan, trace.ticks)
    ensures Endures(s, plan, trace)
  {
    hide Traced, Swiftly, StartsOut, LossyRun, ShortBursts, ReachesInTime;
    TraceIsLossyRun(s, schedule, plan, trace);
    ShortBurstsReach(s, plan, trace.nets, trace.ticks);
  }

  /** On a network that is good enough no arrival ever fails, and a run that reaches its end has converged. */
  lemma EnduringRunsArrive(s: Setup, schedule: Plan, plan: Plan, trace: Trace)
    requires Traced(s, schedule, trace) && Endures(s, plan, trace) && StartsOut(s, plan, trace.nets[0])
    requires plan.frames == schedule.frames && plan.tail == schedule.tail
    ensures trace.failing.Some? ==> |trace.ticks| == plan.frames + plan.tail + 32
    ensures |trace.ticks| == plan.frames + plan.tail + 32 ==>
        var net := trace.nets[|trace.ticks|]; Converged(s, plan, A, net.a) && Converged(s, plan, B, net.b)
  {
    hide LossyTick, StartsOut, ReachesInTime, FiveBit, Converged, OnCourse, Counts, FailingTick, Arrives, LossyRun,
         HasTakenAll, ArrivesCleanly;
    var n := |trace.ticks|;
    TraceIsLossyRun(s, schedule, plan, trace);
    if n == plan.frames + plan.tail + 32 {
      RedundantRunsConverge(s, plan, trace.nets, trace.ticks);
    } else if trace.failing.Some? {
      RunsProceed(s, plan, trace.nets, trace.ticks, n);
      SameTicks(s, schedule, plan, trace.nets[n], n, trace.failing.value);
      FailingArrives(s, plan, trace.nets[n], n, trace.failing.value);
      TickArrives(s, plan, trace.nets[n], n, trace.failing.value);
      assert false;
    }
  }

  lemma FailingArrives(s: Setup, plan: Plan, before: Net, tick: nat, m: Arrivals)
    requires FailingTick(s, plan, before, tick, m)
    ensures Arrives(s, plan, before, tick, m) && !ArrivesCleanly(s, m)
  {
    hide Arrives, ArrivesCleanly;
  }
}
