/** What holds over every run of a session against an honest remote (src/netcode/session.cpp). */
module SessionLaws {
  import opened Core
  import opened FrameRings
  import opened Simulation
  import opened SimulationLaws
  import opened Canonical
  import opened Timelines

  /** The one input the remote side ever sends for each frame. */
  type Truth = int -> InputFrame

  datatype Op = AdvanceOp(input: InputFrame) | IngestOp(input: InputFrame) | FlushOp

  ghost function Applied(t: Timeline, op: Op): Timeline
    requires t.Valid()
  {
    match op
    case AdvanceOp(input) => t.Advanced(input)
    case IngestOp(input) => t.Ingested(input)
    case FlushOp => t.Flushed()
  }

  /** Ingests tell the truth about the frame they are kept at, at any time and any number of times, early or late. */
  ghost predicate Permitted(t: Timeline, op: Op, truth: Truth) {
    match op
    case AdvanceOp(_) => t.HasRoom()
    case IngestOp(input) => input == truth(t.Placed(input.frame))
    case FlushOp => true
  }

  ghost predicate Settled(t: Timeline, frame: int) { t.dirty.None? || frame < t.dirty.value }

  /** Whatever is known and not pending correction was simulated as it really was; so was everything confirmed. */
  ghost predicate Honest(t: Timeline, truth: Truth) {
    && |t.used| == |t.local|
    && (forall k :: k in t.known ==> t.known[k] == truth(k))
    && (forall i :: 0 <= i < |t.used| && t.Retained(t.Base() + i) && t.Base() + i in t.known &&
                    Settled(t, t.Base() + i) ==>
          t.used[i].buttons == truth(t.Base() + i).buttons)
    && (forall i :: 0 <= i < |t.used| && t.Base() + i < t.confirmed ==>
          t.used[i].buttons == truth(t.Base() + i).buttons)
  }

  lemma StartIsHonest(c: Config, truth: Truth)
    ensures Honest(Start(c), truth)
  {
  }

  lemma ConfirmIsHonest(t: Timeline, truth: Truth)
    requires t.Valid() && Honest(t, truth)
    ensures Honest(t.Confirm(), truth) && t.confirmed <= t.Confirm().confirmed
  {
    hide Sound, Timeline.Valid, Timeline.ConfirmedFrom;
    ConfirmedRange(t, t.confirmed);
    Boundaries(t);
    forall i | 0 <= i < |t.used| && t.Base() + i < t.Confirm().confirmed
      ensures t.used[i].buttons == truth(t.Base() + i).buttons
    {
      if t.confirmed <= t.Base() + i {
        assert t.Confirmable(t.Base() + i);
      }
    }
  }

  lemma FlushIsHonest(t: Timeline, truth: Truth)
    requires t.Valid() && Honest(t, truth)
    ensures Honest(t.Flushed(), truth) && t.confirmed <= t.Flushed().confirmed
  {
    hide Sound, Predicted;
    if t.dirty.Some? {
      ResimulatedIsValid(t);
      ConfirmIsHonest(t.Resimulated(), truth);
    } else {
      ConfirmIsHonest(t, truth);
    }
  }

  lemma ExtendIsHonest(t: Timeline, input: InputFrame, truth: Truth)
    requires t.Valid() && Honest(t, truth) && t.dirty.None? && t.HasRoom() && t.Accepts(input)
    ensures Honest(t.Extended(input).Confirm(), truth) && t.confirmed <= t.Extended(input).Confirm().confirmed
  {
    hide Sound, Predicted;
    ExtendedIsValid(t, input);
    ConfirmIsHonest(t.Extended(input), truth);
  }

  lemma AdvanceIsHonest(t: Timeline, input: InputFrame, truth: Truth)
    requires t.Valid() && Honest(t, truth) && t.HasRoom()
    ensures Honest(t.Advanced(input), truth) && t.confirmed <= t.Advanced(input).confirmed
  {
    hide Sound, Timeline.Extended, Honest;
    FlushIsHonest(t, truth);
    FlushedIsValid(t);
    var ready := if t.dirty.Some? then t.Flushed() else t;
    if ready.Accepts(input) {
      ExtendIsHonest(ready, input, truth);
    }
  }

  /** An honest input never contradicts a confirmed frame, so the boundary is not lowered. */
  lemma ReceiveIsHonest(t: Timeline, frame: int, input: InputFrame, truth: Truth)
    requires t.Valid() && Honest(t, truth) && input == truth(frame)
    ensures Honest(t.Received(frame, input), truth) && t.Received(frame, input).confirmed == t.confirmed
  {
    hide Timeline.Valid, Stored;
    Boundaries(t);
    StoredFrom(t.known, frame, input);
    if t.Contradicts(frame, input) {
      assert t.used[frame - t.Base()].buttons != truth(t.Base() + (frame - t.Base())).buttons;
    }
  }

  lemma StoredFrom(known: map<int, InputFrame>, frame: int, input: InputFrame)
    ensures forall k :: k in Stored(known, frame, input) ==>
        if k == frame then Stored(known, frame, input)[k] == input
        else k in known && Stored(known, frame, input)[k] == known[k]
  {
  }

  lemma IngestIsHonest(t: Timeline, input: InputFrame, truth: Truth)
    requires t.Valid() && Honest(t, truth) && input == truth(t.Placed(input.frame))
    ensures Honest(t.Ingested(input), truth) && t.confirmed <= t.Ingested(input).confirmed
  {
    hide Sound, Timeline.Placed, Honest, Timeline.Received;
    if t.IngestError(input).None? {
      var frame := t.Placed(input.frame);
      PlacedIsFaithful(t, input.frame);
      ReceiveIsHonest(t, frame, input, truth);
      ReceivedIsValid(t, frame, input);
      ConfirmIsHonest(t.Received(frame, input), truth);
    }
  }

  /** Every operation keeps validity and honesty, and the confirmed boundary only moves forward. */
  lemma OperationsAreHonest(t: Timeline, op: Op, truth: Truth)
    requires t.Valid() && Honest(t, truth) && Permitted(t, op, truth)
    ensures var u := Applied(t, op);
      u.Valid() && Honest(u, truth) && t.confirmed <= u.confirmed <= u.Now() && u.config == t.config
  {
    hide Sound, Honest, Timeline.Valid, Timeline.Advanced, Timeline.Ingested, Timeline.Flushed;
    match op
    case AdvanceOp(input) =>
      AdvanceIsHonest(t, input, truth);
      AdvancedIsValid(t, input);
      Boundaries(t.Advanced(input));
      KeepsConfig(t, op);
    case IngestOp(input) =>
      IngestIsHonest(t, input, truth);
      IngestedIsValid(t, input);
      Boundaries(t.Ingested(input));
      KeepsConfig(t, op);
    case FlushOp =>
      FlushIsHonest(t, truth);
      FlushedIsValid(t);
      Boundaries(t.Flushed());
      KeepsConfig(t, op);
  }

  lemma KeepsConfig(t: Timeline, op: Op)
    requires t.Valid()
    ensures Applied(t, op).config == t.config
  {
    hide Sound;
  }

  // ---- Runs ----

  ghost predicate Run(states: seq<Timeline>, ops: seq<Op>, truth: Truth) {
    && |states| == |ops| + 1
    && (forall i :: 0 <= i < |ops| ==>
          states[i].Valid() && Permitted(states[i], ops[i], truth) && states[i + 1] == Applied(states[i], ops[i]))
  }

  /**
   * In any order of early, late and repeated honest ingests the boundary never retreats and never passes the present.
   */
  lemma {:induction false} RunsAreHonest(states: seq<Timeline>, ops: seq<Op>, truth: Truth, i: nat, j: nat)
    requires Run(states, ops, truth) && i <= j < |states| && states[0].Valid() && Honest(states[0], truth)
    ensures states[j].Valid() && Honest(states[j], truth) && states[j].config == states[0].config
    ensures states[i].confirmed <= states[j].confirmed <= states[j].Now()
    decreases j
  {
    hide Applied, Permitted, Honest, Timeline.Valid;
    if j > 0 {
      RunsAreHonest(states, ops, truth, if i < j then i else j - 1, j - 1);
      OperationsAreHonest(states[j - 1], ops[j - 1], truth);
    } else {
      Boundaries(states[0]);
    }
  }

  // ---- Confirmed answers ----

  ghost function TrueInputs(truth: Truth, from: int, count: nat): (r: seq<InputFrame>)
    ensures |r| == count && forall i :: 0 <= i < count ==> r[i] == truth(from + i)
  {
    seq(count, i => truth(from + i))
  }

  /** The direct fold of the simulation over the true input pairs, up to boundary `frame`. */
  ghost function TrueWorld(t: Timeline, truth: Truth, frame: int): World
    requires t.Base() <= frame <= t.Now()
  {
    var n := frame - t.Base();
    Worlds(t.config, t.local[..n], TrueInputs(truth, t.Base(), n))[n]
  }

  lemma ConfirmedWorldIsTrue(t: Timeline, truth: Truth, frame: int)
    requires t.Valid() && Honest(t, truth) && t.Base() <= frame <= t.confirmed
    ensures t.AllWorlds()[frame - t.Base()] == TrueWorld(t, truth, frame)
  {
    hide Sound, Worlds;
    var n := frame - t.Base();
    var truths := TrueInputs(truth, t.Base(), n);
    forall i | 0 <= i < n ensures t.used[i].buttons == truths[i].buttons {
      assert t.Base() + i < t.confirmed;
    }
    WorldsSeeButtons(t.config, t.local, t.used, truths, n);
    assert truths[..n] == truths;
  }

  /** Whatever a confirmed query answers is the direct fold's answer, even while a correction is pending. */
  lemma ConfirmedAnswersAreTrue(t: Timeline, truth: Truth, tag: u32, player: PlayerId)
    requires t.Valid() && Honest(t, truth)
    ensures var frame := Nearest(t.confirmed, tag);
      && (t.HashAnswer(tag).Ok? ==>
            (t.Base() <= frame <= t.Now() && frame <= t.confirmed
             && t.HashAnswer(tag).value == HashCanonical(TrueWorld(t, truth, frame))))
      && (t.StateAnswer(tag).Ok? ==>
            (t.Base() <= frame <= t.Now() && frame <= t.confirmed
             && t.StateAnswer(tag).value == TrueWorld(t, truth, frame)))
      && (t.InputAnswer(player, tag).Ok? ==> frame < t.confirmed)
      && (t.InputAnswer(player, tag).Ok? && player == t.config.local ==>
            t.Base() <= frame && t.InputAnswer(player, tag).value == t.local[frame - t.Base()])
      && (t.InputAnswer(player, tag).Ok? && player != t.config.local ==>
            t.InputAnswer(player, tag).value == truth(frame))
  {
    hide Sound, Worlds, HashCanonical, Nearest, TrueWorld;
    var frame := Nearest(t.confirmed, tag);
    Boundaries(t);
    if t.Base() <= frame <= t.confirmed {
      ConfirmedWorldIsTrue(t, truth, frame);
    }
  }

  /** The newest boundaries are always answerable: the queries succeed exactly on the retained confirmed ones. */
  lemma ConfirmedAnswersExist(t: Timeline, frame: int)
    requires t.Valid() && t.Base() <= frame <= t.confirmed && t.Now() - CAPACITY < frame
    ensures t.HashAnswer(Tag(frame)).Ok? && t.StateAnswer(Tag(frame)).Ok?
  {
    hide Sound, Worlds, HashCanonical;
    TagsRefineFrames(frame, t.confirmed);
  }
}
