/** The replay a finished peer writes: `build_replay` of src/udp/peer.cpp. */
module PeerReplays {
  import opened Core
  import opened FrameRings
  import opened Simulation
  import opened SimulationLaws
  import opened Canonical
  import opened Timelines
  import opened SessionLaws
  import opened Sessions
  import opened Replays
  import opened Recordings

  datatype Gathering = Gathering(inputs: seq<InputPair>, checkpoints: seq<Checkpoint>, state: World)

  /** The first `n` confirmed input pairs, folded again from the initial world. */
  ghost function Gathered(t: Timeline, frameCount: u32, n: nat): Result<Gathering>
    requires n <= frameCount
  {
    if n == 0 then Ok(Gathering([], [], InitialWorld()))
    else
      var before :- Gathered(t, frameCount, n - 1);
      var a, b := t.InputAnswer(A, n - 1), t.InputAnswer(B, n - 1);
      if a.Err? || b.Err? then Err(StaleFrame)
      else
        var next :- Simulated(before.state, n - 1, InputPair(a.value, b.value), Canonical);
        Ok(Gathering(before.inputs + [InputPair(a.value, b.value)], before.checkpoints + CheckpointsAt(next,
          frameCount), next))
  }

  ghost function BuiltReplay(t: Timeline, frameCount: u32, scenarioSeed: u64, transportSeed: u64): Result<Replay> {
    var g :- Gathered(t, frameCount, frameCount);
    Ok(Replay(VERSION, VERSION, VERSION, 0, scenarioSeed, transportSeed, frameCount, g.inputs, g.checkpoints,
              HashCanonical(g.state)))
  }

  /** The header of the replay: these seeds and this target, under the canonical rules. */
  lemma BuiltReplayIsLabelled(t: Timeline, frameCount: u32, scenarioSeed: u64, transportSeed: u64)
    ensures var r := BuiltReplay(t, frameCount, scenarioSeed, transportSeed);
      r.Ok? ==>
        && r.value.scenarioSeed == scenarioSeed && r.value.transportSeed == transportSeed
        && r.value.finalFrame == frameCount && r.value.variant == 0
  {
    hide Gathered, HashCanonical;
  }

  lemma {:induction false} GatheringFails(t: Timeline, frameCount: u32, n: nat, m: nat)
    requires n <= m <= frameCount && Gathered(t, frameCount, n).Err?
    ensures Gathered(t, frameCount, m) == Gathered(t, frameCount, n)
  {
    hide Simulated, HashCanonical, IsCheckpoint, Timeline.InputAnswer;
    if n < m {
      GatheringFails(t, frameCount, n, m - 1);
    }
  }

  method BuildReplay(session: RollbackSession, frameCount: u32, scenarioSeed: u64, transportSeed: u64)
    returns (r: Result<Replay>)
    requires session.Valid()
    ensures r == BuiltReplay(session.timeline, frameCount, scenarioSeed, transportSeed)
  {
    hide RollbackSession.Valid, Timeline.InputAnswer, Simulated, HashCanonical, InitialWorld;
    ghost var t := session.timeline;
    var state := InitialWorld();
    var inputs: seq<InputPair> := [];
    var checkpoints: seq<Checkpoint> := [];
    for frame := 0 to frameCount
      invariant Gathered(t, frameCount, frame) == Ok(Gathering(inputs, checkpoints, state))
      modifies {}
    {
      ghost var soFar := Gathered(t, frameCount, frame + 1);
      var a := session.ConfirmedInput(A, frame);
      var b := session.ConfirmedInput(B, frame);
      if a.Err? || b.Err? {
        GatheringFails(t, frameCount, frame + 1, frameCount);
        return Err(StaleFrame);
      }
      var pair := InputPair(a.value, b.value);
      inputs := inputs + [pair];
      var next := SimulateFrame(state, frame, pair, Canonical);
      if next.Err? {
        GatheringFails(t, frameCount, frame + 1, frameCount);
        return Err(next.error);
      }
      state := next.value;
      if IsCheckpoint(state.frame, frameCount) {
        var hash := HashOf(state);
        checkpoints := checkpoints + [Checkpoint(state.frame, hash)];
      } else {
        assert checkpoints + [] == checkpoints;
      }
    }
    var expected := HashOf(state);
    r := Ok(Replay(VERSION, VERSION, VERSION, 0, scenarioSeed, transportSeed, frameCount, inputs, checkpoints,
      expected));
  }

  // ---- What every run keeps, whatever the remote sends ----

  /** Every settled frame whose input is still held was simulated with that input. */
  ghost predicate UsesInputs(t: Timeline) {
    && |t.used| == |t.local|
    && (forall k :: k in t.known && t.Retained(k) && Settled(t, k) ==>
          t.used[k - t.Base()].buttons == t.known[k].buttons)
  }

  ghost predicate Possible(t: Timeline, op: Op) { op.AdvanceOp? ==> t.HasRoom() }

  lemma ResimulatedInput(t: Timeline, k: int)
    requires t.Valid() && t.dirty.Some? && t.Base() <= k < t.Now()
    ensures |t.used| == |t.local|
    ensures t.Resimulated().used[k - t.Base()]
         == if k < t.dirty.value then t.used[k - t.Base()] else ActualOrPredicted(t.config, t.known, k)
  {
    hide Sound, ActualOrPredicted;
  }

  lemma ResimulatedUsesInputs(t: Timeline)
    requires t.Valid() && UsesInputs(t) && t.dirty.Some?
    ensures UsesInputs(t.Resimulated())
  {
    hide Timeline.Valid, Timeline.ResimulatedInputs, Predicted;
    var u := t.Resimulated();
    Boundaries(t);
    forall k | k in u.known && u.Retained(k) ensures u.used[k - u.Base()].buttons == u.known[k].buttons {
      ResimulatedInput(t, k);
    }
  }

  lemma ConfirmUsesInputs(t: Timeline)
    requires UsesInputs(t)
    ensures UsesInputs(t.Confirm())
  {
    hide Timeline.ConfirmedFrom;
  }

  lemma FlushedUsesInputs(t: Timeline)
    requires t.Valid() && UsesInputs(t)
    ensures UsesInputs(t.Flushed())
  {
    hide Sound, UsesInputs;
    if t.dirty.Some? {
      ResimulatedUsesInputs(t);
      ConfirmUsesInputs(t.Resimulated());
    } else {
      ConfirmUsesInputs(t);
    }
  }

  lemma ExtendedUsesInputs(t: Timeline, input: InputFrame)
    requires UsesInputs(t) && t.dirty.None?
    ensures UsesInputs(t.Extended(input))
  {
    hide Predicted;
  }

  lemma AdvancedUsesInputs(t: Timeline, input: InputFrame)
    requires t.Valid() && UsesInputs(t)
    ensures UsesInputs(t.Advanced(input))
  {
    hide Sound, UsesInputs, Timeline.Extended, Timeline.Valid;
    FlushedUsesInputs(t);
    FlushedIsValid(t);
    var ready := if t.dirty.Some? then t.Flushed() else t;
    if ready.Accepts(input) {
      ExtendedUsesInputs(ready, input);
      ConfirmUsesInputs(ready.Extended(input));
    }
  }

  /** An input that differs from the one its frame was simulated with unsettles that frame. */
  lemma ReceivedUsesInputs(t: Timeline, frame: int, input: InputFrame)
    requires UsesInputs(t)
    ensures UsesInputs(t.Received(frame, input))
  {
    var u := t.Received(frame, input);
    forall k | k in u.known && u.Retained(k) && Settled(u, k)
      ensures u.used[k - u.Base()].buttons == u.known[k].buttons
    {
      if k == frame {
        assert !t.Contradicts(frame, input);
      } else {
        assert k in t.known && Settled(t, k);
      }
    }
  }

  lemma IngestedUsesInputs(t: Timeline, input: InputFrame)
    requires t.Valid() && UsesInputs(t)
    ensures UsesInputs(t.Ingested(input))
  {
    hide Sound, UsesInputs, Timeline.Received, Timeline.Placed;
    if t.IngestError(input).None? {
      ReceivedUsesInputs(t, t.Placed(input.frame), input);
      ConfirmUsesInputs(t.Received(t.Placed(input.frame), input));
    }
  }

  /** Every operation, with any input at all, keeps settled frames in agreement with the inputs still held. */
  lemma OperationsUseInputs(t: Timeline, op: Op)
    requires t.Valid() && UsesInputs(t) && Possible(t, op)
    ensures Applied(t, op).Valid() && UsesInputs(Applied(t, op))
  {
    hide Sound, UsesInputs, Timeline.Valid, Timeline.Advanced, Timeline.Ingested, Timeline.Flushed;
    match op
    case AdvanceOp(input) =>
      AdvancedUsesInputs(t, input);
      AdvancedIsValid(t, input);
    case IngestOp(input) =>
      IngestedUsesInputs(t, input);
      IngestedIsValid(t, input);
    case FlushOp =>
      FlushedUsesInputs(t);
      FlushedIsValid(t);
  }

  // ---- Which inputs are still held ----

  /** The caller's log of one ring slot: the frame number of the last ingest that succeeded there. */
  ghost function LastAccepted(states: seq<Timeline>, ops: seq<Op>, slot: nat): Option<u32>
    requires |states| == |ops| + 1
    decreases |ops|
  {
    if ops == [] then None
    else
      var n := |ops| - 1;
      if ops[n].IngestOp? && states[n].IngestError(ops[n].input).None? && ops[n].input.frame % CAPACITY == slot
      then Some(ops[n].input.frame)
      else LastAccepted(states[..n + 1], ops[..n], slot)
  }

  /** Any sequence of operations; ingests may carry anything. */
  ghost predicate AnyRun(states: seq<Timeline>, ops: seq<Op>) {
    && |states| == |ops| + 1
    && (forall i :: 0 <= i < |ops| ==>
          states[i].Valid() && Possible(states[i], ops[i]) && states[i + 1] == Applied(states[i], ops[i]))
  }

  /** Only an ingest changes what is held, and only in its own slot. */
  lemma KnownAfter(t: Timeline, op: Op, k: int)
    requires t.Valid() && t.Base() == 0 && 0 <= k < CAPACITY
    ensures k in Applied(t, op).known <==>
        if op.IngestOp? && t.IngestError(op.input).None? && op.input.frame % CAPACITY == k then op.input.frame == k
        else k in t.known
  {
    hide Sound, Timeline.Placed, Timeline.Flushed, Timeline.Advanced, Timeline.Received, Timeline.Valid, Tag;
    match op
    case AdvanceOp(input) => SimulatingKeepsKnown(t, input);
    case FlushOp => SimulatingKeepsKnown(t, InputFrame(0, A, 0, 0));
    case IngestOp(input) =>
      if t.IngestError(input).None? {
        var frame := t.Placed(input.frame);
        PlacedIsFaithful(t, input.frame);
        IndexOfTag(frame);
        SmallTag(k);
        if input.frame == k {
          PlacedFrame(t, k);
        }
        Boundaries(t);
        ReceivedKnown(t, frame, input);
      }
  }

  lemma SimulatingKeepsKnown(t: Timeline, input: InputFrame)
    requires t.Valid()
    ensures t.Flushed().known == t.known && t.Advanced(input).known == t.known
  {
    hide Sound, ActualOrPredicted;
  }

  lemma ReceivedKnown(t: Timeline, frame: int, input: InputFrame)
    requires |t.used| == |t.local|
    ensures t.Received(frame, input).Confirm().known == Stored(t.known, frame, input)
  {
  }

  lemma {:induction false} RunsUseInputs(states: seq<Timeline>, ops: seq<Op>, c: Config)
    requires AnyRun(states, ops) && states[0] == Start(c) && Sound(c.initial)
    ensures states[|ops|].Valid() && UsesInputs(states[|ops|]) && states[|ops|].config == c
    ensures c.initial.frame == 0 ==> forall k: nat :: k < CAPACITY ==>
        (k in states[|ops|].known <==> LastAccepted(states, ops, k) == Some(k))
    decreases |ops|
  {
    hide Sound, Applied, Possible, UsesInputs, Timeline.Valid, Timeline.IngestError;
    if ops == [] {
      StartIsValid(c);
      StartUsesInputs(c);
    } else {
      var n := |ops| - 1;
      RunsUseInputs(states[..n + 1], ops[..n], c);
      assert states[..n + 1][n] == states[n];
      OperationsUseInputs(states[n], ops[n]);
      KeepsConfig(states[n], ops[n]);
      if c.initial.frame == 0 {
        forall k: nat | k < CAPACITY
          ensures k in states[n + 1].known <==> LastAccepted(states, ops, k) == Some(k)
        {
          KnownAfter(states[n], ops[n], k);
        }
      }
    }
  }

  lemma StartUsesInputs(c: Config)
    ensures UsesInputs(Start(c))
  {
  }

  // ---- Runs with inputs of the first 256 frames keep everything ----

  /** Every confirmed input is still held, because the ring never had to evict one. */
  ghost predicate Unevicted(t: Timeline) {
    && (forall k :: k in t.known ==> t.Base() <= k < t.Base() + CAPACITY)
    && (forall k :: t.Base() <= k < t.confirmed ==> k in t.known)
  }

  /** Ingested frames are among the 256 the ring can hold at once; the remote may otherwise send anything. */
  ghost predicate Early(t: Timeline, op: Op) {
    Possible(t, op) && (op.IngestOp? ==> t.Base() <= t.Placed(op.input.frame) < t.Base() + CAPACITY)
  }

  lemma ConfirmUnevicted(t: Timeline)
    requires Unevicted(t)
    ensures Unevicted(t.Confirm())
  {
    hide Timeline.ConfirmedFrom;
    ConfirmedRange(t, t.confirmed);
    forall k | t.confirmed <= k < t.Confirm().confirmed ensures k in t.known {
      assert t.Confirmable(k);
    }
  }

  lemma FlushedUnevicted(t: Timeline)
    requires t.Valid() && Unevicted(t)
    ensures Unevicted(t.Flushed())
  {
    hide Sound;
    ConfirmUnevicted(if t.dirty.Some? then t.Resimulated() else t);
  }

  lemma AdvancedUnevicted(t: Timeline, input: InputFrame)
    requires t.Valid() && Unevicted(t)
    ensures Unevicted(t.Advanced(input))
  {
    hide Sound, ActualOrPredicted, Timeline.Flushed;
    FlushedUnevicted(t);
    var ready := if t.dirty.Some? then t.Flushed() else t;
    if ready.Accepts(input) {
      ConfirmUnevicted(ready.Extended(input));
    }
  }

  lemma StoredEarly(known: map<int, InputFrame>, base: int, frame: int, input: InputFrame)
    requires base <= frame < base + CAPACITY && forall k :: k in known ==> base <= k < base + CAPACITY
    ensures Stored(known, frame, input) == known[frame := input]
  {
    forall k | k in known && k % CAPACITY == frame % CAPACITY ensures k == frame {
      SameSlot(k, frame);
    }
  }

  lemma IngestedUnevicted(t: Timeline, input: InputFrame)
    requires t.Valid() && Unevicted(t) && t.Base() <= t.Placed(input.frame) < t.Base() + CAPACITY
    ensures Unevicted(t.Ingested(input))
  {
    hide Sound, Timeline.Placed, Stored;
    if t.IngestError(input).None? {
      StoredEarly(t.known, t.Base(), t.Placed(input.frame), input);
      ConfirmUnevicted(t.Received(t.Placed(input.frame), input));
    }
  }

  /** No order of advances, flushes and ingests of the first 256 frames loses a confirmed input. */
  lemma EarlyOperationsEvictNothing(t: Timeline, op: Op)
    requires t.Valid() && Unevicted(t) && Early(t, op)
    ensures Unevicted(Applied(t, op))
  {
    hide Sound, Unevicted, Timeline.Valid, Timeline.Advanced, Timeline.Ingested, Timeline.Flushed, Timeline.Placed;
    match op
    case AdvanceOp(input) => AdvancedUnevicted(t, input);
    case IngestOp(input) => IngestedUnevicted(t, input);
    case FlushOp => FlushedUnevicted(t);
  }

  ghost predicate EarlyRun(states: seq<Timeline>, ops: seq<Op>) {
    AnyRun(states, ops) && forall i :: 0 <= i < |ops| ==> Early(states[i], ops[i])
  }

  lemma {:induction false} EarlyRunsEvictNothing(states: seq<Timeline>, ops: seq<Op>, c: Config)
    requires EarlyRun(states, ops) && states[0] == Start(c)
    ensures Unevicted(states[|ops|])
    decreases |ops|
  {
    hide Sound, Applied, Possible, Timeline.Valid, Timeline.Placed;
    if ops != [] {
      var n := |ops| - 1;
      assert states[..n + 1][n] == states[n];
      EarlyRunsEvictNothing(states[..n + 1], ops[..n], c);
      EarlyOperationsEvictNothing(states[n], ops[n]);
    }
  }

  // ---- The replay of a confirmed session ----

  /** Confirmed to the present, every input held and used, canonical, from the initial world, within one ring. */
  ghost predicate Archivable(t: Timeline) {
    && t.Valid() && t.config.initial == InitialWorld() && t.config.variant.Canonical? && t.Now() <= CAPACITY
    && t.confirmed == t.Now()
    && (forall k: nat :: k < |t.local| ==> k in t.known && t.used[k].buttons == t.known[k].buttons)
  }

  ghost function PairAt(t: Timeline, k: nat): InputPair
    requires k < |t.local| && k in t.known
  {
    MakePair(t.config, t.local[k], t.known[k])
  }

  /** A session from frame 0, within one ring; its remote may have sent anything. */
  ghost predicate Short(t: Timeline) { t.Valid() && t.Base() == 0 && t.Now() <= CAPACITY }

  lemma ShortAnswers(t: Timeline, k: nat)
    requires Short(t) && k < |t.local|
    ensures k < U32
    ensures k < t.confirmed && k in t.known ==>
        && t.InputAnswer(A, k) == Ok(PairAt(t, k).a) && t.InputAnswer(B, k) == Ok(PairAt(t, k).b)
        && Matches(PairAt(t, k), k)
    ensures k >= t.confirmed || k !in t.known ==> t.InputAnswer(A, k).Err? || t.InputAnswer(B, k).Err?
  {
    hide Sound;
    assert Tag(k) == k;
    TagsRefineFrames(k, t.confirmed);
  }

  lemma ArchivableIsShort(t: Timeline)
    requires Archivable(t)
    ensures Short(t) && |t.used| == |t.local| && |t.local| == t.confirmed < U32
  {
    hide Sound;
    InitialWorldIsSound();
  }

  lemma ArchivedPair(t: Timeline, k: nat)
    requires Archivable(t) && k < |t.local|
    ensures k in t.known && k < U32 && |t.used| == |t.local|
    ensures t.InputAnswer(A, k) == Ok(PairAt(t, k).a) && t.InputAnswer(B, k) == Ok(PairAt(t, k).b)
    ensures Matches(PairAt(t, k), k) && t.used[k].buttons == t.known[k].buttons
  {
    hide Sound, Timeline.InputAnswer, PairAt, Matches, Timeline.Valid;
    ArchivableIsShort(t);
    ShortAnswers(t, k);
  }

  lemma ArchivedStep(t: Timeline, k: nat)
    requires Archivable(t) && k < |t.local|
    ensures k in t.known && k < U32 && |t.used| == |t.local|
    ensures Simulated(t.AllWorlds()[k], k, PairAt(t, k), Canonical) == Ok(t.AllWorlds()[k + 1])
    ensures t.AllWorlds()[0] == InitialWorld() && t.AllWorlds()[k + 1].frame == k + 1
  {
    hide Sound, Simulated, Next, NextWorld, InitialWorld, Worlds, Matches, Timeline.Valid, Timeline.InputAnswer, PairAt,
         NextFrame, Tag;
    ArchivableIsShort(t);
    ArchivedPair(t, k);
    SmallTag(k);
    SmallTag(k + 1);
    BoundaryIsSound(t, k);
    WorldsStep(t.config, t.local, t.used, k);
    RoomForStep(t, k);
    SimulatedIsNext(t.AllWorlds()[k], PairAt(t, k), Canonical);
    ArchivedButtons(t, k, t.AllWorlds()[k]);
    NextTag(k);
  }

  lemma ArchivedButtons(t: Timeline, k: nat, w: World)
    requires k < |t.local| == |t.used| && k in t.known && t.used[k].buttons == t.known[k].buttons
    requires t.config.variant.Canonical?
    ensures var pair := PairAt(t, k);
      NextWorld(t.config, w, t.local[k], t.used[k]) == Next(w, pair.a.buttons, pair.b.buttons, Canonical)
  {
    hide Next;
  }

  lemma RoomForStep(t: Timeline, k: nat)
    requires t.Valid() && k < |t.local|
    ensures HasIds(t.AllWorlds()[k])
  {
    hide Sound, Worlds;
    BoundaryIsSound(t, k);
  }

  lemma {:induction false} GatheringSucceeds(t: Timeline, frameCount: u32, n: nat)
    requires Archivable(t) && n <= frameCount && n <= |t.local| == |t.used|
    ensures Gathered(t, frameCount, n).Ok?
    ensures var g := Gathered(t, frameCount, n).value;
      && g.state == t.AllWorlds()[n] && |g.inputs| == n
      && (forall k :: 0 <= k < n ==> k in t.known && g.inputs[k] == PairAt(t, k))
      && Checks(t.AllWorlds(), g.checkpoints, frameCount, n)
  {
    hide Archivable, Simulated, HashCanonical, InitialWorld, Worlds, Timeline.InputAnswer, IsCheckpoint, PairAt, Checks;
    if n == 0 {
      FirstBoundary(t);
      NothingChecks(t.AllWorlds(), frameCount);
    } else {
      GatheringSucceeds(t, frameCount, n - 1);
      ArchivedPair(t, n - 1);
      ArchivedStep(t, n - 1);
      ChecksOneMore(t.AllWorlds(), Gathered(t, frameCount, n - 1).value.checkpoints, frameCount, n - 1);
    }
  }

  lemma FirstBoundary(t: Timeline)
    requires |t.used| == |t.local|
    ensures t.AllWorlds()[0] == t.config.initial
    ensures Archivable(t) ==> t.AllWorlds()[0] == InitialWorld()
  {
    hide NextWorld, InitialWorld, Sound;
    WorldsOfPrefix(t.config, t.local, t.used, 0);
  }

  /**
   * `r` is a replay that verifies and can be encoded, holds every input pair and a checkpoint at every 30th boundary
   * and the last, and ends with this hash.
   */
  ghost predicate Archives(r: Result<Replay>, t: Timeline, finalHash: u64) {
    && |t.local| < U32 && r.Ok? && Replays.Holds(r.value) && Encodable(r.value) && r.value.expectedHash == finalHash
    && |r.value.inputs| == |t.local|
    && (forall k: nat :: k < |t.local| ==> k in t.known && r.value.inputs[k] == PairAt(t, k))
    && (forall f: u32 :: 1 <= f <= |t.local| && IsCheckpoint(f, |t.local|) ==>
          exists i :: 0 <= i < |r.value.checkpoints| && r.value.checkpoints[i].frame == f)
  }

  lemma ArchivableIsArchived(t: Timeline, scenarioSeed: u64, transportSeed: u64)
    requires Archivable(t)
    ensures |t.used| == |t.local| < U32
    ensures Archives(BuiltReplay(t, |t.local|, scenarioSeed, transportSeed), t, HashCanonical(t.State()))
  {
    hide Archivable, Simulated, HashCanonical, InitialWorld, Worlds, IsCheckpoint, ReplayFold, PairAt, Gathered;
    ArchivableIsShort(t);
    var n := |t.local|;
    GatheringSucceeds(t, n, n);
    var r := BuiltReplay(t, n, scenarioSeed, transportSeed).value;
    FirstBoundary(t);
    forall k | 0 <= k < n ensures Simulated(t.AllWorlds()[k], k, r.inputs[k], Canonical) == Ok(t.AllWorlds()[k + 1]) {
      ArchivedStep(t, k);
    }
    RecordingHolds(r, t.AllWorlds());
  }

  // ---- When the replay exists, and what it holds ----

  /** Every input before the boundary is still in the ring. */
  ghost predicate Holding(t: Timeline) { forall k: nat :: k < t.confirmed ==> k in t.known }

  lemma {:induction false} GatheringStops(t: Timeline, frameCount: u32, n: nat)
    requires Short(t) && n <= frameCount && n <= |t.local|
    ensures Gathered(t, frameCount, n).Ok? <==> n <= t.confirmed && forall k: nat :: k < n ==> k in t.known
    ensures Gathered(t, frameCount, n).Err? ==> Gathered(t, frameCount, n) == Err(StaleFrame)
    ensures Gathered(t, frameCount, n).Ok? ==>
        var w := Gathered(t, frameCount, n).value.state; Sound(w) && w.nextId <= 1 + 2 * n && w.frame == n
  {
    hide Sound, Short, Simulated, Next, InitialWorld, Timeline.InputAnswer, PairAt, HashCanonical, IsCheckpoint,
         Matches;
    InitialWorldIsSound();
    ShortIsSmall(t);
    if n > 0 {
      GatheringStops(t, frameCount, n - 1);
      ShortAnswers(t, n - 1);
      if Gathered(t, frameCount, n - 1).Ok? && n - 1 < t.confirmed && n - 1 in t.known {
        SimulatedIsNext(Gathered(t, frameCount, n - 1).value.state, PairAt(t, n - 1), Canonical);
      }
    }
  }

  /** The same inputs, simulated from the initial world by the canonical rules. */
  ghost function Rerun(t: Timeline): Timeline
    requires forall k: nat :: k < |t.local| ==> k in t.known
  {
    Timeline(Config(t.config.local, InitialWorld(), t.config.maxRollback, Canonical), t.local,
             seq(|t.local|, k requires 0 <= k < |t.local| => t.known[k]), t.known, None, t.confirmed, t.counters)
  }

  lemma RerunIsArchivable(t: Timeline)
    requires Short(t) && t.confirmed == t.Now() && Holding(t)
    ensures Archivable(Rerun(t)) && Rerun(t).local == t.local && |t.used| == |t.local|
  {
    hide Sound;
    InitialWorldIsSound();
  }

  lemma RerunAnswersTheSame(t: Timeline, k: nat)
    requires Short(t) && t.confirmed == t.Now() && Holding(t) && k < |t.local|
    ensures k < U32 && Rerun(t).InputAnswer(A, k) == t.InputAnswer(A, k)
    ensures Rerun(t).InputAnswer(B, k) == t.InputAnswer(B, k)
  {
    hide Short, InitialWorld, Timeline.InputAnswer, PairAt, Matches, Archivable;
    ShortIsSmall(t);
    RerunIsArchivable(t);
    ArchivableIsShort(Rerun(t));
    ShortAnswers(t, k);
    ShortAnswers(Rerun(t), k);
    SamePairs(t, k);
  }

  lemma {:induction false} RerunGathersTheSame(t: Timeline, frameCount: u32, n: nat)
    requires Short(t) && t.confirmed == t.Now() && Holding(t) && n <= frameCount && n <= |t.local|
    ensures Gathered(Rerun(t), frameCount, n) == Gathered(t, frameCount, n)
  {
    hide Short, Rerun, Simulated, InitialWorld, HashCanonical, IsCheckpoint, Timeline.InputAnswer;
    ShortIsSmall(t);
    if n > 0 {
      RerunGathersTheSame(t, frameCount, n - 1);
      RerunAnswersTheSame(t, n - 1);
    }
  }

  lemma SameArchive(t: Timeline, r: Result<Replay>, finalHash: u64)
    requires (forall k: nat :: k < |t.local| ==> k in t.known) && Archives(r, Rerun(t), finalHash)
    ensures Archives(r, t, finalHash)
  {
    hide InitialWorld, PairAt, IsCheckpoint, Replays.Holds, Encodable;
    forall k: nat | k < |t.local| ensures PairAt(Rerun(t), k) == PairAt(t, k) {
      SamePairs(t, k);
    }
  }

  lemma SamePairs(t: Timeline, k: nat)
    requires (forall i: nat :: i < |t.local| ==> i in t.known) && k < |t.local|
    ensures PairAt(Rerun(t), k) == PairAt(t, k)
  {
  }

  /**
   * Whatever the remote sent and whatever the variant: `build_replay` succeeds exactly when the session is confirmed at
   * its target and the ring still holds every remote input. The replay then verifies, encodes, and ends with the hash
   * of the canonical simulation of the confirmed inputs.
   */
  lemma ReplayExistsExactly(t: Timeline, scenarioSeed: u64, transportSeed: u64)
    requires Short(t)
    ensures |t.local| < U32 && |t.used| == |t.local|
    ensures var r := BuiltReplay(t, |t.local|, scenarioSeed, transportSeed);
      && (r.Ok? <==> t.confirmed == t.Now() && Holding(t))
      && (r.Err? ==> r == Err(StaleFrame))
      && (r.Ok? ==> |Rerun(t).used| == |Rerun(t).local| && Archives(r, t, HashCanonical(Rerun(t).State())))
  {
    hide Sound, Timeline.Valid, InitialWorld, Gathered, HashCanonical, Archivable, Archives, Rerun, PairAt, Short,
         Timeline.State;
    ShortIsSmall(t);
    GatheringStops(t, |t.local|, |t.local|);
    if t.confirmed == t.Now() && Holding(t) {
      RerunIsArchivable(t);
      RerunGathersTheSame(t, |t.local|, |t.local|);
      ArchivableIsArchived(Rerun(t), scenarioSeed, transportSeed);
      SameArchive(t, BuiltReplay(t, |t.local|, scenarioSeed, transportSeed), HashCanonical(Rerun(t).State()));
    }
  }

  lemma ShortIsSmall(t: Timeline)
    requires Short(t)
    ensures |t.used| == |t.local| <= CAPACITY && 0 <= t.confirmed <= t.Now() == |t.local|
  {
    hide Sound;
  }

  /** A session that starts from the initial world under the canonical rules. */
  ghost predicate Standard(c: Config) { c.initial == InitialWorld() && c.variant.Canonical? }

  lemma StandardIsShort(t: Timeline)
    requires t.Valid() && Standard(t.config) && t.Now() <= CAPACITY
    ensures Short(t)
  {
    hide Sound;
    InitialWorldIsSound();
  }

  /** A confirmed standard session is its own rerun. */
  lemma RerunIsTheSession(t: Timeline)
    requires Short(t) && Standard(t.config) && UsesInputs(t) && t.confirmed == t.Now() && Holding(t)
    ensures |t.used| == |t.local| && |Rerun(t).used| == |Rerun(t).local| && Rerun(t).State() == t.State()
  {
    hide Sound, Worlds, InitialWorld;
    var u, n := Rerun(t), |t.local|;
    forall i | 0 <= i < n ensures t.used[i].buttons == u.used[i].buttons {
      assert t.Retained(i) && Settled(t, i);
    }
    WorldsSeeButtons(t.config, t.local, t.used, u.used, n);
    assert t.local[..n] == t.local && u.used[..n] == u.used;
  }

  /**
   * A standard session confirmed at its target, at most 256 frames in: the replay exists, verifies and ends with the
   * session's own hash exactly when the ring still holds every remote input; otherwise it is lost as stale.
   */
  lemma ReplayOfConfirmedSession(t: Timeline, scenarioSeed: u64, transportSeed: u64)
    requires t.Valid() && UsesInputs(t) && Standard(t.config) && t.confirmed == t.Now() <= CAPACITY
    ensures |t.used| == |t.local| < U32
    ensures var r := BuiltReplay(t, |t.local|, scenarioSeed, transportSeed);
      && (Holding(t) <==> Archives(r, t, HashCanonical(t.State())))
      && (!Holding(t) ==> r == Err(StaleFrame))
  {
    hide Timeline.Valid, UsesInputs, Standard, BuiltReplay, HashCanonical, Rerun, Holding, Timeline.State, Short,
         PairAt, IsCheckpoint;
    StandardIsShort(t);
    ReplayExistsExactly(t, scenarioSeed, transportSeed);
    if Holding(t) {
      RerunIsTheSession(t);
    }
  }

  /**
   * The whole property over every run of a standard session, whatever its remote sends: a session confirmed at its
   * target writes a replay that verifies and ends with the session's own hash exactly when, for every frame below the
   * target, the last input accepted into that frame's slot of the ring was for that frame.
   */
  lemma ReplayOfRun(states: seq<Timeline>, ops: seq<Op>, c: Config, scenarioSeed: u64, transportSeed: u64)
    requires AnyRun(states, ops) && states[0] == Start(c) && Standard(c)
    requires states[|ops|].confirmed == states[|ops|].Now() <= CAPACITY
    ensures var t := states[|ops|];
      && |t.used| == |t.local| < U32
      && var r := BuiltReplay(t, |t.local|, scenarioSeed, transportSeed);
         && ((forall k: nat :: k < |t.local| ==> LastAccepted(states, ops, k) == Some(k)) <==>
                Archives(r, t, HashCanonical(t.State())))
         && (!Archives(r, t, HashCanonical(t.State())) ==> r == Err(StaleFrame))
  {
    hide Possible, Applied, UsesInputs, BuiltReplay, HashCanonical, Timeline.State, Archives, Sound, LastAccepted,
         InitialWorld, Timeline.Valid;
    InitialWorldIsSound();
    var t := states[|ops|];
    RunsUseInputs(states, ops, c);
    ReplayOfConfirmedSession(t, scenarioSeed, transportSeed);
    Boundaries(t);
    assert Holding(t) <==> forall k: nat :: k < |t.local| ==> LastAccepted(states, ops, k) == Some(k);
  }

  /** A run whose inputs all belong to the first 256 frames never loses its replay. */
  lemma ReplayOfEarlyRun(states: seq<Timeline>, ops: seq<Op>, c: Config, scenarioSeed: u64, transportSeed: u64)
    requires EarlyRun(states, ops) && states[0] == Start(c) && Standard(c)
    requires states[|ops|].confirmed == states[|ops|].Now() <= CAPACITY
    ensures var t := states[|ops|];
      && |t.used| == |t.local| < U32
      && Archives(BuiltReplay(t, |t.local|, scenarioSeed, transportSeed), t, HashCanonical(t.State()))
  {
    hide Possible, Applied, Early, UsesInputs, BuiltReplay, HashCanonical, Timeline.State, Archives, Sound,
         InitialWorld, Timeline.Valid;
    InitialWorldIsSound();
    RunsUseInputs(states, ops, c);
    EarlyRunsEvictNothing(states, ops, c);
    ReplayOfConfirmedSession(states[|ops|], scenarioSeed, transportSeed);
  }

  /** One remote input 256 frames ahead evicts the confirmed input of frame 0, and the replay can no longer be built. */
  lemma InputAheadOfTheRingLosesTheReplay(t: Timeline, input: InputFrame, scenarioSeed: u64, transportSeed: u64)
    requires t.Valid() && UsesInputs(t) && Standard(t.config) && t.confirmed == t.Now() <= CAPACITY && t.Now() > 0
    requires input.frame == CAPACITY && input.player == t.Remote()
    ensures t.Ingested(input).Valid() && t.Ingested(input).confirmed == t.confirmed && |t.local| < U32
    ensures BuiltReplay(t.Ingested(input), |t.local|, scenarioSeed, transportSeed) == Err(StaleFrame)
  {
    hide Sound, InitialWorld, BuiltReplay, UsesInputs;
    InitialWorldIsSound();
    var u := t.Ingested(input);
    assert Tag(CAPACITY) == CAPACITY && Tag(t.Now()) == t.Now();
    PlacedFrame(t, CAPACITY);
    IngestedIsValid(t, input);
    IngestedUsesInputs(t, input);
    assert 0 !in u.known;
    ReplayOfConfirmedSession(u, scenarioSeed, transportSeed);
  }
}
