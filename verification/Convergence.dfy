/**
 * One peer of a lock-step run in which packets take at most `delay` ticks and every frame is heard within `lag` ticks
 * of being played (`LiveScenario::Storage::step_once` of src/report/scenario_runner.cpp).
 */
module Convergence {
  import opened Core
  import opened FrameRings
  import opened Simulation
  import opened SimulationLaws
  import opened Timelines
  import opened SessionLaws
  import opened ExtrapolationLaws
  import opened SequenceWindows
  import opened Codec
  import opened Exchange
  import opened Protocol

  // ---- Ingesting on time ----

  /** Every frame before `deadline` has been heard, and nothing pending is more than `lag` frames deep. */
  ghost predicate OnTime(t: Timeline, heard: set<int>, truth: Truth, deadline: int, lag: nat) {
    && Story(t, heard, truth)
    && t.counters.deepest <= lag
    && (t.dirty.Some? ==> t.Now() - t.dirty.value <= lag)
    && t.Now() - t.confirmed <= lag
    && (forall k :: t.Base() <= k < deadline ==> k in heard) && t.Now() - deadline <= lag
  }

  /** The frames `first` .. `first + count - 1`. */
  ghost function Frames(first: int, count: nat): (r: set<int>)
    ensures forall k :: k in r <==> first <= k < first + count
  {
    if count == 0 then {} else Frames(first, count - 1) + {first + count - 1}
  }

  /** A frame of the session's past or present, still inside the rollback window. */
  ghost predicate CanArrive(t: Timeline, truth: Truth, frame: int) {
    && t.Base() <= frame <= t.Now() && t.Now() - frame <= t.config.maxRollback
    && truth(frame).frame == Tag(frame) && truth(frame).player == t.Remote()
  }

  lemma ArrivalIsPunctual(t: Timeline, truth: Truth, frame: int)
    requires t.Valid() && CanArrive(t, truth, frame)
    ensures t.Placed(truth(frame).frame) == frame && t.IngestError(truth(frame)).None?
    ensures Punctual(t, IngestOp(truth(frame)), truth) && Heard(t, IngestOp(truth(frame))) == {frame}
  {
    hide Sound, Nearest, Timeline.Placed;
    PlacedFrame(t, frame);
  }

  lemma HeardNeverContradicts(t: Timeline, heard: set<int>, truth: Truth, frame: int)
    requires t.Valid() && Honest(t, truth) && Tracks(t, heard) && Settled(t, frame)
    requires frame in heard && t.Now() - CAPACITY < frame
    ensures |t.used| == |t.local| && !t.Contradicts(frame, truth(frame))
  {
    hide Sound, ButtonsAt;
    if t.Retained(frame) {
      assert t.used[frame - t.Base()].buttons == truth(t.Base() + (frame - t.Base())).buttons;
    }
  }

  /** A frame heard in time never contradicts; a contradiction is at most `lag` frames deep. */
  lemma ContradictionIsShallow(t: Timeline, heard: set<int>, truth: Truth, deadline: int, lag: nat, frame: int)
    requires OnTime(t, heard, truth, deadline, lag) && CanArrive(t, truth, frame) && Settled(t, frame)
    requires t.Contradicts(frame, truth(frame))
    ensures t.Now() - frame <= lag
  {
    hide Sound, Timeline.Valid, Accounts, Tracks, Honest;
    if frame in heard {
      HeardNeverContradicts(t, heard, truth, frame);
    }
  }

  lemma IngestOnTime(t: Timeline, heard: set<int>, truth: Truth, deadline: int, lag: nat, frame: int)
    requires OnTime(t, heard, truth, deadline, lag) && CanArrive(t, truth, frame)
    ensures t.IngestError(truth(frame)).None?
    ensures OnTime(t.Ingested(truth(frame)), heard + {frame}, truth, deadline, lag)
    ensures var u := t.Ingested(truth(frame)); u.Now() == t.Now() && u.config == t.config && u.local == t.local
  {
    hide Sound, Nearest, Timeline.Placed, ButtonsAt, Timeline.Valid, Honest, Tracks, Accounts, Timeline.Received,
         Timeline.Confirm, CanArrive;
    var input := truth(frame);
    ArrivalIsPunctual(t, truth, frame);
    IngestIsHonest(t, input, truth);
    IngestKeepsClock(t, input);
    OperationsKeepStory(t, IngestOp(input), heard, truth);
    IngestMarks(t, frame, input);
    if t.Ingested(input).dirty != t.dirty {
      ContradictionIsShallow(t, heard, truth, deadline, lag, frame);
    }
  }

  lemma IngestMarks(t: Timeline, frame: int, input: InputFrame)
    requires t.Valid() && t.IngestError(input).None? && t.Placed(input.frame) == frame
    ensures t.Ingested(input).counters.deepest == t.counters.deepest
    ensures t.Ingested(input).dirty != t.dirty ==>
        |t.used| == |t.local| && t.Ingested(input).dirty == Some(frame) && t.Contradicts(frame, input)
          && Settled(t, frame)
  {
    hide Sound, Timeline.Placed;
  }

  lemma FlushOnTime(t: Timeline, heard: set<int>, truth: Truth, deadline: int, lag: nat)
    requires OnTime(t, heard, truth, deadline, lag)
    ensures OnTime(t.Flushed(), heard, truth, deadline, lag) && t.Flushed().dirty.None?
    ensures t.Flushed().Now() == t.Now() && t.Flushed().config == t.config && t.Flushed().local == t.local
    ensures !t.Flushed().Confirmable(t.Flushed().confirmed)
  {
    hide Sound, ButtonsAt, Timeline.Valid, Honest, Tracks, Accounts, Timeline.Flushed;
    FlushIsHonest(t, truth);
    FlushedClock(t);
    OperationsKeepStory(t, FlushOp, heard, truth);
    assert heard + {} == heard;
    FlushCounts(t);
  }

  lemma FlushCounts(t: Timeline)
    requires t.Valid()
    ensures t.Flushed().counters.deepest == t.counters.deepest
         || (t.dirty.Some? && t.Flushed().counters.deepest == t.Now() - t.dirty.value)
    ensures !t.Flushed().Confirmable(t.Flushed().confirmed)
  {
    hide Sound, ActualOrPredicted;
    var u := if t.dirty.None? then t else t.Resimulated();
    ConfirmedRange(u, u.confirmed);
  }

  /** With nothing pending the boundary has moved over every frame heard in time. */
  lemma BoundaryFollowsDeadline(t: Timeline, heard: set<int>, truth: Truth, deadline: int)
    requires t.Valid() && Tracks(t, heard) && Timely(t) && t.dirty.None? && !t.Confirmable(t.confirmed)
    requires forall k :: t.Base() <= k < deadline ==> k in heard
    ensures t.confirmed >= deadline || t.confirmed == t.Now()
  {
    hide Sound, ButtonsAt;
    if t.confirmed < deadline {
      assert t.confirmed in heard;
    }
  }

  /** One more simulated frame, once every frame of the next deadline has been heard. */
  lemma AdvanceOnTime(t: Timeline, heard: set<int>, truth: Truth, deadline: int, lag: nat, input: InputFrame)
    requires OnTime(t, heard, truth, deadline, lag) && t.dirty.None? && t.HasRoom() && t.Accepts(input)
    requires lag < CAPACITY - 2 && forall k :: t.Base() <= k < deadline + 1 ==> k in heard
    ensures var u := t.Advanced(input);
      && OnTime(u, heard, truth, deadline + 1, lag) && u.dirty.None? && !u.Confirmable(u.confirmed)
      && u.Now() == t.Now() + 1 && u.config == t.config && u.local == t.local + [input]
  {
    hide Sound, ButtonsAt, Timeline.Valid, Honest, Tracks, Accounts, Timeline.HasRoom, ActualOrPredicted;
    var u := t.Advanced(input);
    AdvanceIsHonest(t, input, truth);
    AdvanceAppends(t, input);
    OperationsKeepStory(t, AdvanceOp(input), heard, truth);
    assert heard + {} == heard;
    ConfirmedRange(t.Extended(input), t.confirmed);
    BoundaryFollowsDeadline(u, heard, truth, deadline + 1);
  }

  // ---- A whole packet ----

  /** Ingesting a window of true inputs hears all of its frames and cannot fail. */
  lemma {:induction false} IngestAllOnTime(t: Timeline, inputs: seq<InputFrame>, heard: set<int>, truth: Truth,
      deadline: int, lag: nat, first: int)
    requires OnTime(t, heard, truth, deadline, lag)
    requires forall i :: 0 <= i < |inputs| ==> inputs[i] == truth(first + i) && CanArrive(t, truth, first + i)
    ensures t.Valid() && IngestedAll(t, inputs).1.None?
    ensures var u := IngestedAll(t, inputs).0;
      && OnTime(u, heard + Frames(first, |inputs|), truth, deadline, lag)
      && u.Now() == t.Now() && u.config == t.config && u.local == t.local
    decreases |inputs|
  {
    hide OnTime, CanArrive, Timeline.Valid, Timeline.Ingested, Timeline.IngestError;
    OnTimeIsValid(t, heard, truth, deadline, lag);
    if inputs == [] {
      assert heard + Frames(first, 0) == heard;
    } else {
      assert inputs[0] == truth(first + 0);
      IngestOnTime(t, heard, truth, deadline, lag, first);
      var u := t.Ingested(inputs[0]);
      forall i | 0 <= i < |inputs[1..]|
        ensures inputs[1..][i] == truth(first + 1 + i) && CanArrive(u, truth, first + 1 + i)
      {
        assert inputs[1..][i] == inputs[i + 1];
        SameClock(t, u, truth, first + 1 + i);
      }
      IngestAllOnTime(u, inputs[1..], heard + {first}, truth, deadline, lag, first + 1);
      SplitFrames(first, |inputs|);
      assert heard + {first} + Frames(first + 1, |inputs| - 1) == heard + Frames(first, |inputs|);
    }
  }

  lemma SplitFrames(first: int, count: nat)
    requires count > 0
    ensures Frames(first, count) == {first} + Frames(first + 1, count - 1)
  {
    hide Frames;
  }

  lemma SameClock(t: Timeline, u: Timeline, truth: Truth, frame: int)
    requires CanArrive(t, truth, frame) && u.Now() == t.Now() && u.config == t.config
    ensures CanArrive(u, truth, frame)
  {
  }

  lemma OnTimeIsValid(t: Timeline, heard: set<int>, truth: Truth, deadline: int, lag: nat)
    requires OnTime(t, heard, truth, deadline, lag)
    ensures t.Valid() && Honest(t, truth)
  {
  }

  // ---- One peer, tick by tick ----

  /**
   * `frames` simulated ticks, `tail` resending ticks, then 32 ticks of deliveries; no packet takes longer than `delay`,
   * and every frame is heard at most `lag` ticks after it is played.
   */
  datatype Plan = Plan(frames: nat, tail: nat, delay: nat, lag: nat)

  function Min(a: int, b: int): int { if a < b then a else b }

  function Scripted(s: Setup, p: PlayerId, count: nat): (r: seq<InputFrame>)
    ensures |r| == count && forall i :: 0 <= i < count ==> r[i] == ScriptedInput(s, s.Base() + i, p)
  {
    seq(count, i => ScriptedInput(s, s.Base() + i, p))
  }

  /** The frames whose inputs packet `number` carries: the last 32 generated when it was sent. */
  ghost function Carried(s: Setup, plan: Plan, number: nat): set<int> {
    var last := Min(number, plan.frames);
    Frames(s.Base() + last - Min(last, MAX_REDUNDANT_INPUTS), Min(last, MAX_REDUNDANT_INPUTS))
  }

  ghost function HeardFrom(s: Setup, plan: Plan, accepted: set<int>): set<int> {
    set n, k | n in accepted && n >= 0 && k in Carried(s, plan, n) :: k
  }

  lemma HearingOneMore(s: Setup, plan: Plan, accepted: set<int>, number: nat)
    ensures HeardFrom(s, plan, accepted + {number}) == HeardFrom(s, plan, accepted) + Carried(s, plan, number)
  {
    hide Carried;
    forall k | k in HeardFrom(s, plan, accepted) ensures k in HeardFrom(s, plan, accepted + {number}) {
      var n :| n in accepted && n >= 0 && k in Carried(s, plan, n);
      assert n in accepted + {number};
    }
    forall k | k in Carried(s, plan, number) ensures k in HeardFrom(s, plan, accepted + {number}) {
      assert number in accepted + {number};
    }
  }

  ghost predicate WellSent(s: Setup, plan: Plan, letter: Letter) {
    && letter.number >= 1 && letter.packet.sequence == Tag(letter.number)
    && letter.packet.inputs == WindowFrom(Scripted(s, Other(letter.to), Min(letter.number, plan.frames)))
  }

  function Deadline(s: Setup, plan: Plan, tick: nat): int { s.Base() + Min(tick - plan.lag, plan.frames) }

  /** Every overdue frame was in some accepted packet. */
  ghost predicate Prompt(s: Setup, plan: Plan, accepted: set<int>, tick: nat) {
    forall k :: s.Base() <= k < Deadline(s, plan, tick) ==> k in HeardFrom(s, plan, accepted)
  }

  /** A peer at a tick, with `sent` packets sent to it so far: on schedule, and every overdue frame heard. */
  ghost predicate InStep(s: Setup, plan: Plan, p: PlayerId, peer: Peer, tick: nat, sent: nat) {
    var t, accepted := peer.endpoint.session, peer.endpoint.window.accepted;
    && PeerIsGood(s, p, peer)
    && OnTime(t, HeardFrom(s, plan, accepted), TruthFor(s, p), Deadline(s, plan, tick), plan.lag)
    && plan.delay + MAX_REDUNDANT_INPUTS <= t.config.maxRollback + 1
    && t.dirty.None? && !t.Confirmable(t.confirmed)
    && t.Now() == s.Base() + Min(tick, plan.frames)
    && Coherent(peer.endpoint.window) && (forall n :: n in accepted ==> 1 <= n <= sent)
  }

  ghost predicate Arriving(s: Setup, plan: Plan, letter: Letter, tick: nat) {
    WellSent(s, plan, letter) && tick + 1 - plan.delay <= letter.number <= tick + 1
  }

  /** Nothing that arrives within 63 ticks is stale. */
  lemma ArrivingIsFresh(plan: Plan, w: Window, number: int, tick: nat)
    requires Coherent(w) && plan.delay < WINDOW && (forall n :: n in w.accepted ==> 1 <= n <= tick + 1)
    requires tick + 1 - plan.delay <= number <= tick + 1
    ensures Accepted(Judged(w, number)) <==> number !in w.accepted
    ensures Coherent(Observed(w, number)) && Observed(w, number).accepted == w.accepted + {number}
  {
  }

  lemma InputsCanArrive(s: Setup, plan: Plan, p: PlayerId, t: Timeline, letter: Letter, tick: nat, i: nat)
    requires Arriving(s, plan, letter, tick) && letter.to == p && 0 < plan.delay && i < |letter.packet.inputs|
    requires t.config.local == p && t.config.initial == s.initial && t.Now() == s.Base() + Min(tick, plan.frames)
    requires plan.delay + MAX_REDUNDANT_INPUTS <= t.config.maxRollback + 1
    ensures var last := Min(letter.number, plan.frames);
      var first := s.Base() + last - Min(last, MAX_REDUNDANT_INPUTS);
      && |letter.packet.inputs| == Min(last, MAX_REDUNDANT_INPUTS)
      && letter.packet.inputs[i] == TruthFor(s, p)(first + i)
      && CanArrive(t, TruthFor(s, p), first + i)
  {
  }

  lemma ProcessingInStep(s: Setup, plan: Plan, p: PlayerId, e: Endpoint, letter: Letter, tick: nat, seed: u64,
      heard: set<int>)
    requires Arriving(s, plan, letter, tick) && letter.to == p && 0 < plan.delay
    requires e.session.config.local == p && e.session.config.initial == s.initial
    requires e.session.Now() == s.Base() + Min(tick, plan.frames)
    requires plan.delay + MAX_REDUNDANT_INPUTS <= e.session.config.maxRollback + 1
    requires OnTime(e.session, heard, TruthFor(s, p), Deadline(s, plan, tick), plan.lag)
    requires Accepted(Judged(e.window, letter.number))
    ensures e.session.Valid()
    ensures var (after, error) := Processed(e, letter.packet, letter.number, seed);
      && error.None? && after.window == Observed(e.window, letter.number)
      && OnTime(after.session, heard + Carried(s, plan, letter.number), TruthFor(s, p), Deadline(s, plan, tick),
           plan.lag)
      && after.session.dirty.None? && !after.session.Confirmable(after.session.confirmed)
      && after.session.Now() == e.session.Now() && after.session.config == e.session.config
  {
    hide OnTime, CanArrive, Timeline.Valid, IngestedAll, ComparedAll, Judged, Observed, Timeline.Flushed,
         WindowFrom, Deadline, Frames, Timeline.Confirmable, TruthFor, WellSent;
    var t, truth := e.session, TruthFor(s, p);
    var last := Min(letter.number, plan.frames);
    var count := Min(last, MAX_REDUNDANT_INPUTS);
    var first := s.Base() + last - count;
    WindowCount(s, plan, letter);
    forall i | 0 <= i < |letter.packet.inputs|
      ensures letter.packet.inputs[i] == truth(first + i) && CanArrive(t, truth, first + i)
    {
      InputsCanArrive(s, plan, p, t, letter, tick, i);
    }
    IngestAllOnTime(t, letter.packet.inputs, heard, truth, Deadline(s, plan, tick), plan.lag, first);
    var u := IngestedAll(t, letter.packet.inputs).0;
    OnTimeIsValid(u, heard + Frames(first, count), truth, Deadline(s, plan, tick), plan.lag);
    FlushOnTime(u, heard + Frames(first, count), truth, Deadline(s, plan, tick), plan.lag);
  }

  lemma WindowCount(s: Setup, plan: Plan, letter: Letter)
    requires WellSent(s, plan, letter)
    ensures |letter.packet.inputs| == Min(Min(letter.number, plan.frames), MAX_REDUNDANT_INPUTS)
  {
  }

  /** A packet that arrives in time is accepted, cannot fail, and keeps the peer in step. */
  lemma DeliveryInStep(s: Setup, plan: Plan, p: PlayerId, peer: Peer, letter: Letter, tick: nat)
    requires InStep(s, plan, p, peer, tick, tick + 1) && GoodLetter(s, letter) && letter.to == p
    requires Arriving(s, plan, letter, tick) && 0 < plan.delay < WINDOW
    ensures peer.endpoint.session.Valid()
    ensures Processed(peer.endpoint, letter.packet, letter.number, s.scenario).1.None?
    ensures var after := Delivered(peer, letter, s.scenario);
      && InStep(s, plan, p, after, tick, tick + 1)
      && after.endpoint.window.accepted == peer.endpoint.window.accepted + {letter.number}
  {
    hide OnTime, PeerIsGood, GoodLetter, Timeline.Valid, IngestedAll, ComparedAll, Judged, Observed,
         Timeline.Flushed, Timeline.Confirmable, Arriving, Carried, HeardFrom, Deadline, TruthFor;
    var e := peer.endpoint;
    DeliveryIsGood(s, p, peer, letter);
    GoodPeerConfig(s, p, peer);
    ArrivalBounds(s, plan, letter, tick);
    ArrivingIsFresh(plan, e.window, letter.number, tick);
    if Accepted(Judged(e.window, letter.number)) {
      ProcessingInStep(s, plan, p, e, letter, tick, s.scenario, HeardFrom(s, plan, e.window.accepted));
      HearingOneMore(s, plan, e.window.accepted, letter.number);
    } else {
      assert e.window.accepted + {letter.number} == e.window.accepted;
      IgnoredPacket(e, letter.packet, letter.number, s.scenario);
    }
  }

  lemma GoodPeerConfig(s: Setup, p: PlayerId, peer: Peer)
    requires PeerIsGood(s, p, peer)
    ensures peer.endpoint.session.config.local == p && peer.endpoint.session.config.initial == s.initial
  {
  }

  lemma ArrivalBounds(s: Setup, plan: Plan, letter: Letter, tick: nat)
    requires Arriving(s, plan, letter, tick)
    ensures 1 <= letter.number && tick + 1 - plan.delay <= letter.number <= tick + 1
  {
  }

  lemma IgnoredPacket(e: Endpoint, packet: Packet, number: int, seed: u64)
    requires e.session.Valid() && Coherent(e.window)
    requires !Accepted(Judged(e.window, number))
    ensures Processed(e, packet, number, seed) == (e, None)
  {
    hide Timeline.Valid;
  }

  lemma PromptAtLeast(s: Setup, plan: Plan, accepted: set<int>, tick: nat)
    requires Prompt(s, plan, accepted, tick + 1)
    ensures tick < plan.frames ==>
        forall k :: s.Base() <= k < Deadline(s, plan, tick) + 1 ==> k in HeardFrom(s, plan, accepted)
  {
  }

  /** Advancing after the deliveries of a simulated tick. */
  lemma AdvanceInStep(s: Setup, plan: Plan, p: PlayerId, peer: Peer, tick: nat)
    requires InStep(s, plan, p, peer, tick, tick + 1) && Prompt(s, plan, peer.endpoint.window.accepted, tick + 1)
    requires tick < plan.frames && plan.lag < CAPACITY - 2 && peer.endpoint.session.HasRoom()
    ensures var t := peer.endpoint.session;
      && t.Valid()
      && InStep(s, plan, p, peer.(endpoint := peer.endpoint.(session := t.Advanced(ScriptedInput(s, t.Now(), p)))),
           tick + 1, tick + 1)
  {
    hide OnTime, PeerIsGood, Timeline.Valid, Timeline.Confirmable, HeardFrom, TruthFor, Timeline.Advanced,
         Timeline.HasRoom, Coherent, Prompt;
    var t := peer.endpoint.session;
    var heard := HeardFrom(s, plan, peer.endpoint.window.accepted);
    GoodPeerConfig(s, p, peer);
    OnTimeIsValid(t, heard, TruthFor(s, p), Deadline(s, plan, tick), plan.lag);
    AdvanceIsGood(s, p, peer);
    PromptAtLeast(s, plan, peer.endpoint.window.accepted, tick);
    AdvanceOnTime(t, heard, TruthFor(s, p), Deadline(s, plan, tick), plan.lag, ScriptedInput(s, t.Now(), p));
  }

  /** A tick without simulation, past the last frame. */
  lemma IdleInStep(s: Setup, plan: Plan, p: PlayerId, peer: Peer, tick: nat)
    requires InStep(s, plan, p, peer, tick, tick + 1) && Prompt(s, plan, peer.endpoint.window.accepted, tick + 1)
    requires tick >= plan.frames
    ensures InStep(s, plan, p, peer, tick + 1, tick + 1)
  {
    hide PeerIsGood, Timeline.Valid, Timeline.Confirmable, HeardFrom, TruthFor, Coherent, Story;
    var t := peer.endpoint.session;
    GoodPeerConfig(s, p, peer);
  }

  /** When the last input is overdue, the peer is confirmed at the target frame. */
  lemma InStepConverges(s: Setup, plan: Plan, p: PlayerId, peer: Peer, tick: nat, sent: nat)
    requires InStep(s, plan, p, peer, tick, sent) && plan.frames + plan.lag <= tick
    ensures var t := peer.endpoint.session;
      && t.Valid() && Honest(t, TruthFor(s, p)) && t.confirmed == t.Now() == s.Base() + plan.frames
      && t.dirty.None? && t.counters.deepest <= plan.lag
      && (s.variantA == s.variantB ==> peer.endpoint.diagnostic.None?)
  {
    hide Timeline.Valid, Timeline.Confirmable, HeardFrom, TruthFor, Coherent, Honest, Tracks, Accounts;
    var t := peer.endpoint.session;
    BoundaryFollowsDeadline(t, HeardFrom(s, plan, peer.endpoint.window.accepted), TruthFor(s, p), Deadline(s, plan,
      tick));
    SessionIsValid(s, p, peer);
    Boundaries(t);
  }
}
