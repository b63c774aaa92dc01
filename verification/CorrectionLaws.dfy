/**
 * Which frame a correction goes back to, over every run of a session and whatever its remote sends
 * (src/netcode/session.cpp).
 */
module CorrectionLaws {
  import opened Core
  import opened FrameRings
  import opened Simulation
  import opened SimulationLaws
  import opened Timelines
  import opened SessionLaws
  import opened PeerReplays

  /** The input is taken, and its frame was simulated less than 256 frames ago with other buttons. */
  ghost predicate Surprises(t: Timeline, input: InputFrame, frame: int) {
    && |t.used| == |t.local| && t.IngestError(input).None? && frame == t.Placed(input.frame)
    && t.Base() <= frame < t.Now() && t.Now() - 256 <= frame && t.used[frame - t.Base()].buttons != input.buttons
  }

  /** The frames contradicted since the last operation that corrects. */
  ghost function PendingFrames(states: seq<Timeline>, ops: seq<Op>): set<int>
    requires |states| == |ops| + 1
    decreases |ops|
  {
    if ops == [] then {}
    else
      var n := |ops| - 1;
      if !ops[n].IngestOp? then {}
      else
        var frame := states[n].Placed(ops[n].input.frame);
        PendingFrames(states[..n + 1], ops[..n]) + if Surprises(states[n], ops[n].input, frame) then {frame} else {}
  }

  ghost predicate IsLeast(frame: int, s: set<int>) { frame in s && forall k :: k in s ==> frame <= k }

  /** Exactly the contradicted frames are pending, and the mark is at the earliest of them. */
  ghost predicate MarksEarliest(t: Timeline, pending: set<int>) {
    if t.dirty.None? then pending == {} else IsLeast(t.dirty.value, pending)
  }

  lemma IngestMarks(t: Timeline, input: InputFrame, pending: set<int>)
    requires t.Valid() && MarksEarliest(t, pending)
    ensures var frame := t.Placed(input.frame);
      MarksEarliest(t.Ingested(input), pending + if Surprises(t, input, frame) then {frame} else {})
  {
    hide Sound, Timeline.Placed, Stored;
    var frame := t.Placed(input.frame);
    ConfirmKeepsMark(t.Received(frame, input));
  }

  lemma ConfirmKeepsMark(t: Timeline)
    ensures t.Confirm().dirty == t.dirty
  {
    hide Timeline.ConfirmedFrom;
  }

  lemma CorrectingClears(t: Timeline, op: Op)
    requires t.Valid() && Possible(t, op) && !op.IngestOp?
    ensures Applied(t, op).dirty.None?
  {
    hide Timeline.Valid, Timeline.Advanced, Timeline.Flushed;
    if op.AdvanceOp? {
      AdvancedIsValid(t, op.input);
    } else {
      FlushedIsValid(t);
    }
  }

  /** Over every run the pending mark is the earliest frame contradicted since the last correction. */
  lemma {:induction false} MarkIsEarliest(states: seq<Timeline>, ops: seq<Op>, c: Config)
    requires AnyRun(states, ops) && states[0] == Start(c) && Sound(c.initial)
    ensures states[|ops|].Valid() && MarksEarliest(states[|ops|], PendingFrames(states, ops))
    decreases |ops|
  {
    hide Sound, Applied, Possible, UsesInputs, Timeline.Valid, Timeline.Placed, Surprises;
    RunsUseInputs(states, ops, c);
    if ops != [] {
      var n := |ops| - 1;
      assert states[..n + 1][n] == states[n];
      MarkIsEarliest(states[..n + 1], ops[..n], c);
      if ops[n].IngestOp? {
        IngestMarks(states[n], ops[n].input, PendingFrames(states[..n + 1], ops[..n]));
        IngestApplied(states[n], ops[n]);
      } else {
        CorrectingClears(states[n], ops[n]);
      }
    }
  }

  lemma IngestApplied(t: Timeline, op: Op)
    requires t.Valid() && op.IngestOp?
    ensures Applied(t, op) == t.Ingested(op.input)
  {
    hide Timeline.Valid, Timeline.Ingested;
  }

  /**
   * A flush performs a correction exactly when some taken input contradicted a simulated frame since the last one. It
   * then goes back to the earliest such frame, resimulates everything from there on and keeps everything before.
   */
  lemma CorrectionsGoBackToTheEarliest(states: seq<Timeline>, ops: seq<Op>, c: Config, r: CorrectionResult)
    requires AnyRun(states, ops) && states[0] == Start(c) && Sound(c.initial)
    ensures states[|ops|].Valid()
    ensures var t, pending := states[|ops|], PendingFrames(states, ops);
      Reported(t, t.Flushed(), r) ==>
      && (r.performed <==> pending != {})
      && (r.performed ==> exists frame ::
            && IsLeast(frame, pending) && r.rollbackFrom == Tag(frame) && r.resimulatedFrames == t.Now() - frame
            && |t.Flushed().used| == |t.used| == |t.local| && t.Base() <= frame < t.Now()
            && forall i :: 0 <= i < frame - t.Base() ==> t.Flushed().used[i] == t.used[i])
  {
    hide Sound, Timeline.Valid, Timeline.Flushed, Applied, Possible, PendingFrames;
    MarkIsEarliest(states, ops, c);
    var t := states[|ops|];
    if r.performed && Reported(t, t.Flushed(), r) {
      assert IsLeast(t.dirty.value, PendingFrames(states, ops));
    }
  }
}
