/**
 * Delivery-order independence and metric conservation, for honest remote inputs that are ingested
 * only when current or past (src/netcode/session.cpp, the ingest guard of src/c_api/session_api.cpp).
 */
module ExtrapolationLaws {
  import opened Core
  import opened FrameRings
  import opened Simulation
  import opened SimulationLaws
  import opened Timelines
  import opened SessionLaws

  /** The buttons of the latest heard frame at or before `frame`; neutral when there is none. */
  ghost function ButtonsAt(heard: set<int>, truth: Truth, base: int, frame: int): u8
    decreases frame - base
  {
    if frame < base then 0
    else if frame in heard then truth(frame).buttons
    else ButtonsAt(heard, truth, base, frame - 1)
  }

  /** Simulated frames whose remote input has not been heard. */
  ghost function Unheard(heard: set<int>, base: int, count: nat): nat {
    if count == 0 then 0 else Unheard(heard, base, count - 1) + if base + count - 1 in heard then 0 else 1
  }

  /** `heard` is the set of frames accepted so far; the newest 256 of them are retained. */
  ghost predicate Tracks(t: Timeline, heard: set<int>) {
    && (forall k :: k in heard ==> t.Base() <= k <= t.Now())
    && (forall k :: k in t.known ==> k in heard)
    && (forall k :: k in heard && t.Now() - CAPACITY < k ==> k in t.known)
    && (forall k :: t.Base() <= k < t.confirmed ==> k in heard)
  }

  ghost predicate Accounts(t: Timeline, heard: set<int>) {
    && t.counters.predicted - t.counters.late == Unheard(heard, t.Base(), |t.local|)
    && t.counters.rollbacks + (if t.dirty.Some? then 1 else 0) <= t.counters.late
    && t.counters.rollbacks <= t.counters.resimulated <= t.counters.rollbacks * t.counters.deepest
    && t.counters.deepest <= t.config.maxRollback
  }

  /** Valid, honest, tracked and balanced, under a rollback limit below the ring's 256. */
  ghost predicate Ledger(t: Timeline, heard: set<int>, truth: Truth) {
    t.Valid() && Honest(t, truth) && Tracks(t, heard) && Accounts(t, heard) && t.config.maxRollback < CAPACITY
  }

  /** Every settled frame was simulated with the extrapolation of what was heard. */
  ghost predicate Extrapolates(t: Timeline, heard: set<int>, truth: Truth) {
    forall i :: 0 <= i < |t.used| && Settled(t, t.Base() + i) ==>
      t.used[i].buttons == ButtonsAt(heard, truth, t.Base(), t.Base() + i)
  }

  /** The confirmed boundary lags by at most 254 frames, so a prediction never needs a forgotten input. */
  ghost predicate Timely(t: Timeline) { t.Now() - t.confirmed <= CAPACITY - 2 }

  ghost predicate Story(t: Timeline, heard: set<int>, truth: Truth) {
    Ledger(t, heard, truth) && Extrapolates(t, heard, truth) && Timely(t)
  }

  /** What an operation adds to the set of accepted frames. */
  ghost function Heard(t: Timeline, op: Op): set<int> {
    if op.IngestOp? && t.IngestError(op.input).None? then {t.Placed(op.input.frame)} else {}
  }

  /** Permitted, and an ingested frame is current or past, since the session's start. */
  ghost predicate Punctual(t: Timeline, op: Op, truth: Truth) {
    Permitted(t, op, truth) && (op.IngestOp? ==> t.Base() <= t.Placed(op.input.frame) <= t.Now())
  }

  // ---- Prediction is extrapolation ----

  lemma {:induction false} NothingBelow(t: Timeline, frame: int, offset: nat)
    requires 0 < offset && forall k :: k in t.known ==> frame - offset < k
    ensures PredictedFrom(t.config, t.known, frame, offset).buttons == 0
    decreases CAPACITY - offset
  {
    if offset <= CAPACITY {
      NothingBelow(t, frame, offset + 1);
    }
  }

  lemma {:induction false} SearchExtrapolates(t: Timeline, heard: set<int>, truth: Truth, frame: int, offset: nat)
    requires Honest(t, truth) && Tracks(t, heard) && Timely(t) && t.Base() <= t.confirmed
    requires 0 < offset && t.confirmed - 1 <= frame - offset && frame <= t.Now()
    requires forall k :: frame - offset < k < frame ==> k !in t.known
    ensures PredictedFrom(t.config, t.known, frame, offset).buttons
         == ButtonsAt(heard, truth, t.Base(), frame - offset)
    decreases frame - offset - t.confirmed + 1
  {
    hide Honest;
    var k := frame - offset;
    if k < t.Base() {
      NothingBelow(t, frame, offset);
    } else if k in t.known {
      KnownIsTrue(t, truth, k);
    } else {
      assert k !in heard;
      SearchExtrapolates(t, heard, truth, frame, offset + 1);
    }
  }

  lemma KnownIsTrue(t: Timeline, truth: Truth, k: int)
    requires Honest(t, truth) && k in t.known
    ensures t.known[k] == truth(k)
  {
  }

  /** On an unconfirmed frame the session uses the actual input, else the last one heard, else neutral. */
  lemma PredictionExtrapolates(t: Timeline, heard: set<int>, truth: Truth, frame: int)
    requires Honest(t, truth) && Tracks(t, heard) && Timely(t)
    requires t.Base() <= t.confirmed <= frame <= t.Now()
    ensures ActualOrPredicted(t.config, t.known, frame).buttons == ButtonsAt(heard, truth, t.Base(), frame)
  {
    hide Honest, PredictedFrom;
    if frame in t.known {
      KnownIsTrue(t, truth, frame);
    } else {
      assert frame !in heard;
      SearchExtrapolates(t, heard, truth, frame, 1);
    }
  }

  /** The search is exact: it forgets an input precisely when it is more than 256 frames old. */
  lemma {:induction false} SearchForgets(c: Config, known: map<int, InputFrame>, frame: int, latest: int, offset: nat)
    requires 0 < offset <= CAPACITY + 1 && latest in known && latest <= frame - offset
    requires forall k :: latest < k < frame ==> k !in known
    ensures PredictedFrom(c, known, frame, offset)
         == if frame - latest <= CAPACITY then known[latest].(frame := Tag(frame))
            else InputFrame(Tag(frame), Other(c.local), 0, 0)
    decreases CAPACITY - offset
  {
    if offset <= CAPACITY && frame - offset > latest {
      SearchForgets(c, known, frame, latest, offset + 1);
    }
  }

  // ---- Each operation keeps track of what was heard ----

  lemma ConfirmTracks(t: Timeline, heard: set<int>)
    requires t.Valid() && Tracks(t, heard)
    ensures Tracks(t.Confirm(), heard)
  {
    hide Sound, Timeline.Valid, Timeline.ConfirmedFrom;
    ConfirmedRange(t, t.confirmed);
    Boundaries(t);
    forall k | t.confirmed <= k < t.Confirm().confirmed ensures k in heard {
      assert t.Confirmable(k);
    }
  }

  lemma StoredTracks(t: Timeline, frame: int, input: InputFrame, heard: set<int>)
    requires t.Valid() && Tracks(t, heard) && t.config.maxRollback < CAPACITY
    requires t.Base() <= frame <= t.Now() && t.Now() - frame <= t.config.maxRollback
    ensures var known := Stored(t.known, frame, input);
      && (forall k :: k in known ==> k in heard + {frame})
      && (forall k :: k in heard + {frame} && t.Now() - CAPACITY < k ==> k in known)
    ensures frame in t.known <==> frame in heard
  {
    hide Sound;
    forall k | k in t.known && t.Now() - CAPACITY < k && k != frame ensures k % CAPACITY != frame % CAPACITY {
      if k % CAPACITY == frame % CAPACITY {
        SameSlot(k, frame);
      }
    }
  }

  lemma ReceiveTracks(t: Timeline, frame: int, input: InputFrame, heard: set<int>, truth: Truth)
    requires t.Valid() && Honest(t, truth) && Tracks(t, heard) && t.config.maxRollback < CAPACITY
    requires input == truth(frame) && t.Base() <= frame <= t.Now() && t.Now() - frame <= t.config.maxRollback
    ensures Tracks(t.Received(frame, input), heard + {frame})
  {
    hide Sound, Stored;
    StoredTracks(t, frame, input, heard);
    ReceiveIsHonest(t, frame, input, truth);
  }

  // ---- Each operation keeps the extrapolation ----

  lemma FlushExtrapolates(t: Timeline, heard: set<int>, truth: Truth)
    requires t.Valid() && Honest(t, truth) && Tracks(t, heard) && Timely(t) && t.dirty.Some?
    requires Extrapolates(t, heard, truth)
    ensures Extrapolates(t.Resimulated(), heard, truth)
  {
    hide Sound, ActualOrPredicted, ButtonsAt, Honest, Tracks;
    Boundaries(t);
    forall i | 0 <= i < |t.used|
      ensures t.ResimulatedInputs()[i].buttons == ButtonsAt(heard, truth, t.Base(), t.Base() + i)
    {
      if t.dirty.value <= t.Base() + i {
        PredictionExtrapolates(t, heard, truth, t.Base() + i);
      }
    }
  }

  lemma ExtendExtrapolates(t: Timeline, input: InputFrame, heard: set<int>, truth: Truth)
    requires t.Valid() && Honest(t, truth) && Tracks(t, heard) && Timely(t) && t.dirty.None?
    requires Extrapolates(t, heard, truth)
    ensures Extrapolates(t.Extended(input), heard, truth)
  {
    hide Sound, ActualOrPredicted, ButtonsAt, Honest, Tracks;
    Boundaries(t);
    PredictionExtrapolates(t, heard, truth, t.Now());
  }

  lemma {:induction false} HearingLater(heard: set<int>, truth: Truth, base: int, frame: int, later: int)
    requires frame < later
    ensures ButtonsAt(heard + {later}, truth, base, frame) == ButtonsAt(heard, truth, base, frame)
    decreases frame - base
  {
    if base <= frame && frame !in heard {
      HearingLater(heard, truth, base, frame - 1, later);
    }
  }

  /** Hearing what was extrapolated anyway changes no extrapolation. */
  lemma {:induction false} HearingTheExpected(heard: set<int>, truth: Truth, base: int, new_: int, frame: int)
    requires base <= new_ && truth(new_).buttons == ButtonsAt(heard, truth, base, new_)
    ensures ButtonsAt(heard + {new_}, truth, base, frame) == ButtonsAt(heard, truth, base, frame)
    decreases frame - base
  {
    if frame < new_ {
      HearingLater(heard, truth, base, frame, new_);
    } else if frame > new_ && frame !in heard {
      HearingTheExpected(heard, truth, base, new_, frame - 1);
    }
  }

  lemma ReceiveExtrapolates(t: Timeline, frame: int, input: InputFrame, heard: set<int>, truth: Truth)
    requires t.Valid() && t.config.maxRollback < CAPACITY && Extrapolates(t, heard, truth) && input == truth(frame)
    requires t.Base() <= frame <= t.Now() && t.Now() - frame <= t.config.maxRollback
    ensures Extrapolates(t.Received(frame, input), heard + {frame}, truth)
  {
    hide Sound, ButtonsAt, Stored;
    var u := t.Received(frame, input);
    Boundaries(t);
    forall i | 0 <= i < |u.used| && Settled(u, u.Base() + i)
      ensures u.used[i].buttons == ButtonsAt(heard + {frame}, truth, u.Base(), u.Base() + i)
    {
      assert Settled(t, t.Base() + i);
      if frame in heard {
        assert heard + {frame} == heard;
      } else if t.Base() + i < frame {
        HearingLater(heard, truth, t.Base(), t.Base() + i, frame);
      } else {
        assert t.Retained(frame) && !t.Contradicts(frame, input) && Settled(t, frame);
        assert t.used[frame - t.Base()].buttons == ButtonsAt(heard, truth, t.Base(), t.Base() + (frame - t.Base()));
        HearingTheExpected(heard, truth, t.Base(), frame, t.Base() + i);
      }
    }
  }

  // ---- Counters ----

  lemma {:induction false} UnheardDrops(heard: set<int>, base: int, count: nat, frame: int)
    requires frame !in heard && base <= frame
    ensures Unheard(heard + {frame}, base, count) == Unheard(heard, base, count) - if frame < base + count then 1 else 0
  {
    if count > 0 {
      UnheardDrops(heard, base, count - 1, frame);
    }
  }

  lemma DepthsAddUp(rollbacks: nat, resimulated: nat, deepest: nat, depth: nat)
    requires rollbacks <= resimulated <= rollbacks * deepest && 0 < depth
    ensures var d := if depth > deepest then depth else deepest;
      rollbacks + 1 <= resimulated + depth <= (rollbacks + 1) * d
  {
    var d := if depth > deepest then depth else deepest;
    assert rollbacks * deepest <= rollbacks * d;
    assert (rollbacks + 1) * d == rollbacks * d + d;
  }

  lemma FlushAccounts(t: Timeline, heard: set<int>)
    requires t.Valid() && t.dirty.Some? && Accounts(t, heard)
    ensures Accounts(t.Resimulated(), heard)
  {
    hide Sound, Unheard;
    DepthsAddUp(t.counters.rollbacks, t.counters.resimulated, t.counters.deepest, t.Now() - t.dirty.value);
  }

  lemma ExtendAccounts(t: Timeline, input: InputFrame, heard: set<int>)
    requires t.Valid() && t.dirty.None? && Tracks(t, heard) && Accounts(t, heard)
    ensures Accounts(t.Extended(input), heard)
  {
    hide Sound;
  }

  lemma ReceiveAccounts(t: Timeline, frame: int, input: InputFrame, heard: set<int>, truth: Truth)
    requires Ledger(t, heard, truth) && input == truth(frame)
    requires t.Base() <= frame <= t.Now() && t.Now() - frame <= t.config.maxRollback
    ensures Accounts(t.Received(frame, input), heard + {frame})
  {
    hide Sound, Unheard, Stored;
    Boundaries(t);
    StoredTracks(t, frame, input, heard);
    if frame in heard {
      assert heard + {frame} == heard;
      if t.dirty.None? && t.Retained(frame) {
        assert t.used[frame - t.Base()].buttons == truth(t.Base() + (frame - t.Base())).buttons;
      }
    } else {
      UnheardDrops(heard, t.Base(), |t.local|, frame);
    }
  }

  // ---- The ledger over operations: no bound on the lag ----

  lemma FlushKeepsLedger(t: Timeline, heard: set<int>, truth: Truth)
    requires Ledger(t, heard, truth)
    ensures Ledger(t.Flushed(), heard, truth)
  {
    hide Sound, Unheard, ActualOrPredicted, Honest;
    FlushIsHonest(t, truth);
    FlushedIsValid(t);
    if t.dirty.Some? {
      FlushAccounts(t, heard);
      ResimulatedIsValid(t);
      ConfirmTracks(t.Resimulated(), heard);
    } else {
      ConfirmTracks(t, heard);
    }
  }

  lemma ExtendKeepsLedger(t: Timeline, input: InputFrame, heard: set<int>, truth: Truth)
    requires Ledger(t, heard, truth) && t.dirty.None? && t.HasRoom() && t.Accepts(input)
    ensures Ledger(t.Extended(input).Confirm(), heard, truth)
  {
    hide Sound, Unheard, ActualOrPredicted, Honest;
    var u := t.Extended(input);
    ExtendIsHonest(t, input, truth);
    ExtendedIsValid(t, input);
    ConfirmIsValid(u);
    ConfirmTracks(u, heard);
    ExtendAccounts(t, input, heard);
  }

  lemma IngestKeepsLedger(t: Timeline, input: InputFrame, heard: set<int>, truth: Truth)
    requires Ledger(t, heard, truth) && Punctual(t, IngestOp(input), truth)
    ensures Ledger(t.Ingested(input), heard + Heard(t, IngestOp(input)), truth)
  {
    hide Sound, Unheard, Honest, Tracks, Timeline.Placed, Timeline.Received;
    if t.IngestError(input).None? {
      var frame := t.Placed(input.frame);
      var u := t.Received(frame, input);
      PlacedIsFaithful(t, input.frame);
      IngestIsHonest(t, input, truth);
      IngestedIsValid(t, input);
      ReceivedIsValid(t, frame, input);
      ReceiveTracks(t, frame, input, heard, truth);
      ConfirmTracks(u, heard + {frame});
      ReceiveAccounts(t, frame, input, heard, truth);
      ReceiveKeepsClock(t, frame, input);
    } else {
      assert heard + {} == heard;
    }
  }

  lemma ReceiveKeepsClock(t: Timeline, frame: int, input: InputFrame)
    requires |t.used| == |t.local|
    ensures var u := t.Received(frame, input).Confirm();
      && u.Now() == t.Now() && u.config == t.config && u.counters == t.Received(frame, input).counters
      && u.local == t.local && u.dirty == t.Received(frame, input).dirty
  {
  }

  /** Every punctual operation keeps the ledger, however far the boundary lags. */
  lemma OperationsKeepLedger(t: Timeline, op: Op, heard: set<int>, truth: Truth)
    requires Ledger(t, heard, truth) && Punctual(t, op, truth)
    ensures Ledger(Applied(t, op), heard + Heard(t, op), truth)
  {
    hide Sound, Ledger, Timeline.Flushed, Timeline.Extended, Timeline.Confirm, Timeline.Ingested;
    LedgerIsValid(t, heard, truth);
    match op
    case IngestOp(input) =>
      IngestKeepsLedger(t, input, heard, truth);
    case FlushOp =>
      FlushKeepsLedger(t, heard, truth);
      assert heard + {} == heard;
    case AdvanceOp(input) =>
      assert heard + {} == heard;
      FlushKeepsLedger(t, heard, truth);
      FlushedClock(t);
      var ready := if t.dirty.Some? then t.Flushed() else t;
      if ready.Accepts(input) {
        ExtendKeepsLedger(ready, input, heard, truth);
      }
  }

  lemma LedgerIsValid(t: Timeline, heard: set<int>, truth: Truth)
    requires Ledger(t, heard, truth)
    ensures t.Valid() && Honest(t, truth) && Tracks(t, heard) && t.config.maxRollback < CAPACITY
  {
  }

  // ---- The story over operations: the boundary lags by at most 254 frames ----

  lemma ConfirmExtrapolates(t: Timeline, heard: set<int>, truth: Truth)
    requires Extrapolates(t, heard, truth)
    ensures Extrapolates(t.Confirm(), heard, truth)
  {
    hide Timeline.ConfirmedFrom, ButtonsAt;
  }

  lemma FlushedExtrapolates(t: Timeline, heard: set<int>, truth: Truth)
    requires Story(t, heard, truth)
    ensures Extrapolates(t.Flushed(), heard, truth) && Timely(t.Flushed())
  {
    hide Sound, Ledger, Extrapolates, Honest, Tracks;
    LedgerIsValid(t, heard, truth);
    FlushIsHonest(t, truth);
    FlushedClock(t);
    if t.dirty.Some? {
      FlushExtrapolates(t, heard, truth);
      ConfirmExtrapolates(t.Resimulated(), heard, truth);
    } else {
      ConfirmExtrapolates(t, heard, truth);
    }
  }

  lemma IngestedExtrapolates(t: Timeline, input: InputFrame, heard: set<int>, truth: Truth)
    requires Story(t, heard, truth) && Punctual(t, IngestOp(input), truth)
    ensures Extrapolates(t.Ingested(input), heard + Heard(t, IngestOp(input)), truth)
  {
    hide Sound, Ledger, Extrapolates, Timeline.Placed, Timeline.Received, Honest, Tracks;
    LedgerIsValid(t, heard, truth);
    if t.IngestError(input).None? {
      var frame := t.Placed(input.frame);
      PlacedIsFaithful(t, input.frame);
      ReceiveExtrapolates(t, frame, input, heard, truth);
      ConfirmExtrapolates(t.Received(frame, input), heard + {frame}, truth);
    } else {
      assert heard + {} == heard;
    }
  }

  /** Every punctual operation that leaves the session on time keeps the whole story. */
  lemma OperationsKeepStory(t: Timeline, op: Op, heard: set<int>, truth: Truth)
    requires Story(t, heard, truth) && Punctual(t, op, truth) && Timely(Applied(t, op))
    ensures Story(Applied(t, op), heard + Heard(t, op), truth)
  {
    hide Sound, Ledger, Extrapolates, Timeline.Flushed, Timeline.Extended, Timeline.Confirm, Timeline.Ingested, Timely,
         Tracks, Honest;
    LedgerIsValid(t, heard, truth);
    OperationsKeepLedger(t, op, heard, truth);
    match op
    case IngestOp(input) =>
      IngestedExtrapolates(t, input, heard, truth);
    case FlushOp =>
      FlushedExtrapolates(t, heard, truth);
      assert heard + {} == heard;
    case AdvanceOp(input) =>
      assert heard + {} == heard;
      FlushKeepsLedger(t, heard, truth);
      FlushedExtrapolates(t, heard, truth);
      FlushedClock(t);
      var ready := if t.dirty.Some? then t.Flushed() else t;
      LedgerIsValid(ready, heard, truth);
      if ready.Accepts(input) {
        ExtendExtrapolates(ready, input, heard, truth);
        ConfirmExtrapolates(ready.Extended(input), heard, truth);
      }
  }

  lemma FlushedClock(t: Timeline)
    requires t.Valid()
    ensures t.Flushed().dirty.None? && t.Flushed().Now() == t.Now() && t.Flushed().config == t.config
    ensures t.Flushed().local == t.local
  {
    hide Sound;
  }

  lemma StartStory(c: Config, truth: Truth)
    requires Sound(c.initial) && c.maxRollback < CAPACITY
    ensures Story(Start(c), {}, truth)
  {
    hide Sound;
    StartIsValid(c);
  }

  /** All frames accepted during a run. */
  ghost function HeardBy(states: seq<Timeline>, ops: seq<Op>): set<int>
    requires |states| == |ops| + 1
    decreases |ops|
  {
    if ops == [] then {} else
    var n := |ops| - 1;
    HeardBy(states[..n + 1], ops[..n]) + Heard(states[n], ops[n])
  }

  /** Every ingested frame is current or past; the remote may stay silent as long as it likes. */
  ghost predicate PunctualRun(states: seq<Timeline>, ops: seq<Op>, truth: Truth) {
    Run(states, ops, truth) && forall i :: 0 <= i < |ops| ==> Punctual(states[i], ops[i], truth)
  }

  ghost predicate TimelyRun(states: seq<Timeline>, ops: seq<Op>, truth: Truth) {
    PunctualRun(states, ops, truth) && forall i :: 0 <= i < |states| ==> Timely(states[i])
  }

  lemma PrefixOfRun(states: seq<Timeline>, ops: seq<Op>, truth: Truth)
    requires PunctualRun(states, ops, truth)
    ensures |states| == |ops| + 1
    ensures ops != [] ==> var n := |ops| - 1;
      && PunctualRun(states[..n + 1], ops[..n], truth) && states[..n + 1][0] == states[0]
      && states[..n + 1][n] == states[n]
      && states[n].Valid() && Punctual(states[n], ops[n], truth)
      && states[n + 1] == Applied(states[n], ops[n])
  {
    hide Applied, Punctual, Permitted, Timeline.Valid;
  }

  lemma {:induction false} RunsKeepLedger(states: seq<Timeline>, ops: seq<Op>, c: Config, truth: Truth)
    requires PunctualRun(states, ops, truth) && states[0] == Start(c) && Sound(c.initial) && c.maxRollback < CAPACITY
    ensures Ledger(states[|ops|], HeardBy(states, ops), truth)
    decreases |ops|
  {
    hide Ledger, Sound, Applied, Start, Punctual, PunctualRun, Timeline.Valid;
    StartStory(c, truth);
    PrefixOfRun(states, ops, truth);
    if ops != [] {
      var n := |ops| - 1;
      RunsKeepLedger(states[..n + 1], ops[..n], c, truth);
      LedgerIsValid(states[n], HeardBy(states[..n + 1], ops[..n]), truth);
      OperationsKeepLedger(states[n], ops[n], HeardBy(states[..n + 1], ops[..n]), truth);
    }
  }

  lemma {:induction false} RunsKeepStory(states: seq<Timeline>, ops: seq<Op>, c: Config, truth: Truth)
    requires TimelyRun(states, ops, truth) && states[0] == Start(c) && Sound(c.initial) && c.maxRollback < CAPACITY
    ensures Story(states[|ops|], HeardBy(states, ops), truth)
    decreases |ops|
  {
    hide Ledger, Extrapolates, Sound, Applied, Timely, Start, Punctual, PunctualRun, Timeline.Valid;
    StartStory(c, truth);
    PrefixOfRun(states, ops, truth);
    if ops != [] {
      var n := |ops| - 1;
      RunsKeepStory(states[..n + 1], ops[..n], c, truth);
      LedgerIsValid(states[n], HeardBy(states[..n + 1], ops[..n]), truth);
      OperationsKeepStory(states[n], ops[n], HeardBy(states[..n + 1], ops[..n]), truth);
    }
  }

  // ---- Consequences ----

  ghost function ExtrapolatedInputs(t: Timeline, heard: set<int>, truth: Truth): (r: seq<InputFrame>)
    ensures |r| == |t.local|
  {
    seq(|t.local|, i => InputFrame(0, A, 0, ButtonsAt(heard, truth, t.config.initial.frame,
      t.config.initial.frame + i)))
  }

  /** With nothing pending, the state is the fold over the extrapolation of what was heard. */
  lemma SettledStateIsExtrapolated(t: Timeline, heard: set<int>, truth: Truth)
    requires t.Valid() && Extrapolates(t, heard, truth) && t.dirty.None?
    ensures t.State() == Worlds(t.config, t.local, ExtrapolatedInputs(t, heard, truth))[|t.local|]
  {
    hide Sound, Worlds, ButtonsAt;
    var inputs := ExtrapolatedInputs(t, heard, truth);
    WorldsSeeButtons(t.config, t.local, t.used, inputs, |t.local|);
    assert t.local[..|t.local|] == t.local && inputs[..|t.local|] == inputs;
  }

  lemma FlushedStateIsExtrapolated(t: Timeline, heard: set<int>, truth: Truth)
    requires Story(t, heard, truth)
    ensures t.Valid() && t.Flushed().Valid()
    ensures t.Flushed().State() == Worlds(t.config, t.local, ExtrapolatedInputs(t, heard, truth))[|t.local|]
  {
    hide Sound, Worlds, ButtonsAt, Timeline.Flushed, Timeline.Valid, Honest, Tracks, Accounts, Extrapolates;
    FlushKeepsLedger(t, heard, truth);
    FlushedExtrapolates(t, heard, truth);
    FlushedClock(t);
    SettledStateIsExtrapolated(t.Flushed(), heard, truth);
  }

  /**
   * After `flush_corrections` the state depends only on the configuration, the local inputs and the set of accepted
   * remote inputs, whatever the order, repetition or interleaving of ingests, advances and flushes.
   */
  lemma DeliveryOrderIsIrrelevant(states: seq<Timeline>, ops: seq<Op>, states': seq<Timeline>, ops': seq<Op>,
                                  c: Config, truth: Truth)
    requires TimelyRun(states, ops, truth) && TimelyRun(states', ops', truth)
    requires states[0] == states'[0] == Start(c) && Sound(c.initial) && c.maxRollback < CAPACITY
    requires HeardBy(states, ops) == HeardBy(states', ops') && states[|ops|].local == states'[|ops'|].local
    ensures states[|ops|].Valid() && states'[|ops'|].Valid()
    ensures states[|ops|].Flushed().State() == states'[|ops'|].Flushed().State()
  {
    hide Story, Sound, Timeline.Valid, Timeline.Flushed, Start, PunctualRun, Worlds, ButtonsAt, HeardBy, Timeline.State;
    PrefixOfRun(states, ops, truth);
    PrefixOfRun(states', ops', truth);
    var heard := HeardBy(states, ops);
    RunsKeepStory(states, ops, c, truth);
    RunsKeepStory(states', ops', c, truth);
    FlushedStateIsExtrapolated(states[|ops|], heard, truth);
    FlushedStateIsExtrapolated(states'[|ops'|], heard, truth);
    ConfigOfRun(states, ops, c, truth);
    ConfigOfRun(states', ops', c, truth);
  }

  lemma ConfigOfRun(states: seq<Timeline>, ops: seq<Op>, c: Config, truth: Truth)
    requires PunctualRun(states, ops, truth) && states[0] == Start(c) && Sound(c.initial)
    ensures states[|ops|].config == c
  {
    hide Sound, Applied, Permitted, Honest;
    StartIsValid(c);
    StartIsHonest(c, truth);
    RunsAreHonest(states, ops, truth, 0, |ops|);
  }

  /**
   * Predictions minus late arrivals are the frames still unheard; rollbacks and depths bound the resimulated frames.
   * This needs no bound on how far the boundary lags.
   */
  lemma MetricsAreConserved(states: seq<Timeline>, ops: seq<Op>, c: Config, truth: Truth)
    requires PunctualRun(states, ops, truth) && states[0] == Start(c) && Sound(c.initial) && c.maxRollback < CAPACITY
    ensures var t, heard := states[|ops|], HeardBy(states, ops);
      && t.counters.predicted - t.counters.late == Unheard(heard, t.Base(), |t.local|)
      && (t.confirmed == t.Now() ==> t.counters.predicted == t.counters.late)
      && t.counters.rollbacks <= t.counters.late <= t.counters.predicted
      && t.counters.rollbacks <= t.counters.resimulated <= t.counters.rollbacks * t.counters.deepest
      && t.counters.deepest <= c.maxRollback
  {
    hide Sound, Applied, Permitted, Timeline.Valid, HeardBy, Honest, Start;
    RunsKeepLedger(states, ops, c, truth);
    ConfigOfRun(states, ops, c, truth);
    var t, heard := states[|ops|], HeardBy(states, ops);
    if t.confirmed == t.Now() {
      AllHeard(heard, t.Base(), |t.local|);
    }
  }

  lemma {:induction false} AllHeard(heard: set<int>, base: int, count: nat)
    requires forall k :: base <= k < base + count ==> k in heard
    ensures Unheard(heard, base, count) == 0
  {
    if count > 0 {
      AllHeard(heard, base, count - 1);
    }
  }
}
