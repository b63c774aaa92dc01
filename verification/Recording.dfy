/**
 * Recording a replay while simulating: inputs, a checkpoint at every 30th boundary and the last, and the final hash.
 */
module Recordings {
  import opened Core
  import opened Simulation
  import opened SimulationLaws
  import opened Canonical
  import opened Replays

  const CHECKPOINT_INTERVAL: int := 30

  predicate IsCheckpoint(frame: u32, frameCount: u32) { frame % CHECKPOINT_INTERVAL == 0 || frame == frameCount }

  function CheckpointsAt(w: World, frameCount: u32): (r: seq<Checkpoint>)
    ensures |r| <= 1
  {
    if IsCheckpoint(w.frame, frameCount) then [Checkpoint(w.frame, HashCanonical(w))] else []
  }

  /** `worlds` are the boundaries of the canonical simulation of `inputs` from the initial world. */
  ghost predicate Replayed(worlds: seq<World>, inputs: seq<InputPair>) {
    && |worlds| == |inputs| + 1 <= U32 && worlds[0] == InitialWorld()
    && (forall k :: 0 <= k < |inputs| ==> Simulated(worlds[k], k, inputs[k], Canonical) == Ok(worlds[k + 1]))
  }

  lemma NothingReplayed()
    ensures Replayed([InitialWorld()], [])
  {
  }

  lemma ReplayOneMore(worlds: seq<World>, inputs: seq<InputPair>, pair: InputPair, next: World)
    requires Replayed(worlds, inputs) && |inputs| < U32 - 1
    requires Simulated(worlds[|inputs|], |inputs|, pair, Canonical) == Ok(next)
    ensures Replayed(worlds + [next], inputs + [pair])
  {
    hide Simulated;
    forall k | 0 <= k < |inputs + [pair]|
      ensures Simulated((worlds + [next])[k], k, (inputs + [pair])[k], Canonical) == Ok((worlds + [next])[k + 1])
    {
      if k < |inputs| {
        assert Simulated(worlds[k], k, inputs[k], Canonical) == Ok(worlds[k + 1]);
      }
    }
  }

  /** The checkpoints taken by boundary `n`: the right frames, in order, with the hashes of these worlds. */
  ghost predicate Checks(worlds: seq<World>, checkpoints: seq<Checkpoint>, frameCount: u32, n: nat)
    requires n < |worlds|
  {
    && Increasing(checkpoints)
    && |checkpoints| <= n / CHECKPOINT_INTERVAL + (if n >= frameCount then 1 else 0)
    && (forall i :: 0 <= i < |checkpoints| ==>
          1 <= checkpoints[i].frame <= n && IsCheckpoint(checkpoints[i].frame, frameCount)
          && checkpoints[i].hash == HashCanonical(worlds[checkpoints[i].frame]))
    && (forall f: u32 :: 1 <= f <= n && IsCheckpoint(f, frameCount) ==>
          exists i :: 0 <= i < |checkpoints| && checkpoints[i].frame == f)
  }

  lemma NothingChecks(worlds: seq<World>, frameCount: u32)
    requires worlds != []
    ensures Checks(worlds, [], frameCount, 0)
  {
  }

  lemma ChecksOneMore(worlds: seq<World>, checkpoints: seq<Checkpoint>, frameCount: u32, n: nat)
    requires n + 1 < |worlds| && n + 1 < U32 && n < frameCount && Checks(worlds, checkpoints, frameCount, n)
      && worlds[n + 1].frame == n + 1
    ensures Checks(worlds, checkpoints + CheckpointsAt(worlds[n + 1], frameCount), frameCount, n + 1)
  {
    hide HashCanonical;
    var all := checkpoints + CheckpointsAt(worlds[n + 1], frameCount);
    forall f: u32 | 1 <= f <= n + 1 && IsCheckpoint(f, frameCount)
      ensures exists i :: 0 <= i < |all| && all[i].frame == f
    {
      if f <= n {
        var i :| 0 <= i < |checkpoints| && checkpoints[i].frame == f;
        assert all[i].frame == f;
      } else {
        assert all[|checkpoints|].frame == f;
      }
    }
  }

  lemma ChecksInLonger(worlds: seq<World>, next: World, checkpoints: seq<Checkpoint>, frameCount: u32, n: nat)
    requires n < |worlds| && Checks(worlds, checkpoints, frameCount, n)
    ensures Checks(worlds + [next], checkpoints, frameCount, n)
  {
    hide HashCanonical, IsCheckpoint;
  }

  /** By boundary `n` there is a checkpoint at every 30th boundary after the first and at the target, and no other. */
  lemma CheckpointsAreDue(worlds: seq<World>, checkpoints: seq<Checkpoint>, frameCount: u32, n: nat, f: u32)
    requires n < |worlds| && n <= frameCount && Checks(worlds, checkpoints, frameCount, n)
    ensures (exists i :: 0 <= i < |checkpoints| && checkpoints[i].frame == f)
        <==> 1 <= f <= n && (f % 30 == 0 || f == frameCount)
  {
    hide HashCanonical;
    assert IsCheckpoint(f, frameCount) <==> f % 30 == 0 || f == frameCount;
  }

  // ---- A recorded replay holds ----

  lemma {:induction false} FoldIsRecorded(r: Replay, worlds: seq<World>, n: nat)
    requires Replayed(worlds, r.inputs) && r.variant == 0 && n <= |r.inputs|
    ensures ReplayFold(r, n) == Ok(worlds[n])
  {
    hide Simulated, InitialWorld;
    if n > 0 {
      FoldIsRecorded(r, worlds, n - 1);
      assert Simulated(worlds[n - 1], n - 1, r.inputs[n - 1], Canonical) == Ok(worlds[n - 1 + 1]);
    }
  }

  lemma RecordingHolds(r: Replay, worlds: seq<World>)
    requires Supported(r) && r.variant == 0 && |r.inputs| == r.finalFrame <= MAX_REPLAY_FRAMES
    requires Replayed(worlds, r.inputs) && Checks(worlds, r.checkpoints, r.finalFrame, |r.inputs|)
    requires r.expectedHash == HashCanonical(worlds[|r.inputs|])
    ensures Holds(r) && Encodable(r)
  {
    hide Step, HashCanonical, InitialWorld, IsCheckpoint, ReplayFold;
    forall k | 0 <= k < |r.inputs| ensures Matches(r.inputs[k], k) {
      assert Simulated(worlds[k], k, r.inputs[k], Canonical) == Ok(worlds[k + 1]);
    }
    FoldIsRecorded(r, worlds, |r.inputs|);
    forall i | 0 <= i < |r.checkpoints| ensures CheckpointHolds(r, r.checkpoints[i]) {
      FoldIsRecorded(r, worlds, r.checkpoints[i].frame);
    }
  }

  // ---- The recorder of a live run ----

  class Recorder {
    const frameCount: u32
    var inputs: seq<InputPair>
    var checkpoints: seq<Checkpoint>
    var state: World
    var expectedHash: u64
    ghost var worlds: seq<World>

    ghost predicate Valid()
      reads this
    {
      && frameCount <= MAX_REPLAY_FRAMES && |inputs| <= frameCount
      && Replayed(worlds, inputs) && Checks(worlds, checkpoints, frameCount, |inputs|) && state == worlds[|inputs|]
      && Sound(state) && state.nextId <= 1 + 2 * |inputs| && state.frame == |inputs|
      && (|inputs| == frameCount ==> expectedHash == HashCanonical(state))
    }

    constructor (count: u32)
      requires 0 < count <= MAX_REPLAY_FRAMES
      ensures Valid() && inputs == [] && frameCount == count && state == InitialWorld()
    {
      hide HashCanonical, Sound, InitialWorld;
      InitialWorldIsSound();
      NothingReplayed();
      NothingChecks([InitialWorld()], count);
      frameCount := count;
      inputs, checkpoints, state, expectedHash := [], [], InitialWorld(), 0;
      worlds := [InitialWorld()];
    }

    /** Simulate one more pair directly and keep it, with a checkpoint when one is due. */
    method Record(pair: InputPair)
      requires Valid() && |inputs| < frameCount && Matches(pair, |inputs|)
      modifies this
      ensures Valid() && inputs == old(inputs) + [pair]
      ensures state == Next(old(state), pair.a.buttons, pair.b.buttons, Canonical)
    {
      hide HashCanonical, Sound, Simulated, Next, IsCheckpoint, Matches, Checks, Replayed;
      var n := |inputs|;
      WorldCount(worlds, inputs);
      SimulatedIsNext(state, pair, Canonical);
      var next := SimulateFrame(state, n, pair, Canonical);
      if next.Err? {
        assert false;
      }
      ReplayOneMore(worlds, inputs, pair, next.value);
      ChecksInLonger(worlds, next.value, checkpoints, frameCount, n);
      ChecksOneMore(worlds + [next.value], checkpoints, frameCount, n);
      worlds := worlds + [next.value];
      inputs := inputs + [pair];
      state := next.value;
      if IsCheckpoint(state.frame, frameCount) {
        var hash := HashOf(state);
        checkpoints := checkpoints + [Checkpoint(state.frame, hash)];
      } else {
        assert checkpoints + [] == checkpoints;
      }
      if |inputs| == frameCount {
        expectedHash := HashOf(state);
      }
    }

    /** The recording under its seeds, as the canonical variant of version 1. */
    function Recorded(scenarioSeed: u64, transportSeed: u64): (r: Replay)
      reads this
      ensures r.scenarioSeed == scenarioSeed && r.transportSeed == transportSeed && r.variant == 0
      ensures r.replayVersion == 1 && r.simulationVersion == 1 && r.protocolVersion == 1 && r.finalFrame == frameCount
      ensures r.inputs == inputs && r.checkpoints == checkpoints && r.expectedHash == expectedHash
    {
      Replay(VERSION, VERSION, VERSION, 0, scenarioSeed, transportSeed, frameCount, inputs, checkpoints, expectedHash)
    }

    /** A complete recording verifies. */
    lemma CompleteRecordingHolds(scenarioSeed: u64, transportSeed: u64)
      requires Valid() && |inputs| == frameCount
      ensures Holds(Recorded(scenarioSeed, transportSeed)) && Encodable(Recorded(scenarioSeed, transportSeed))
    {
      hide Replayed, Checks, Holds, Encodable, HashCanonical, Sound;
      RecordingHolds(Recorded(scenarioSeed, transportSeed), worlds);
    }
  }

  lemma WorldCount(worlds: seq<World>, inputs: seq<InputPair>)
    requires Replayed(worlds, inputs)
    ensures |worlds| == |inputs| + 1
  {
  }
}
