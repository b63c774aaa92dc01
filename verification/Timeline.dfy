/**
 * One peer's rollback session in unbounded time: whole histories instead of rings, frame numbers
 * that never wrap, and worlds that are recomputed instead of cached.
 * `Sessions.RollbackSession` is proved to implement it.
 */
module Timelines {
  import opened Core
  import opened FrameRings
  import opened Simulation
  import opened SimulationLaws
  import opened Canonical

  datatype Config = Config(local: PlayerId, initial: World, maxRollback: u32, variant: Variant)

  datatype Counters = Counters(rollbacks: nat, resimulated: nat, deepest: nat, predicted: nat, late: nat)

  datatype AdvanceResult = AdvanceResult(simulatedFrame: u32, predictedRemote: bool, stateHash: u64)

  datatype CorrectionResult = CorrectionResult(performed: bool, rollbackFrom: u32, resimulatedFrames: nat)

  datatype SessionReport = SessionReport(localPeer: PlayerId, state: World, confirmedFrame: u32, counters: Counters,
    finalHash: u64)

  // ---- Worlds of a history ----

  function MakePair(c: Config, local: InputFrame, remote: InputFrame): InputPair {
    if c.local.A? then InputPair(local, remote) else InputPair(remote, local)
  }

  function NextWorld(c: Config, w: World, local: InputFrame, remote: InputFrame): World {
    var pair := MakePair(c, local, remote);
    Next(w, pair.a.buttons, pair.b.buttons, c.variant)
  }

  /** Every boundary from the initial one on: the left fold of the simulation, kept whole. */
  function Worlds(c: Config, local: seq<InputFrame>, remote: seq<InputFrame>): (r: seq<World>)
    requires |local| == |remote|
    ensures |r| == |local| + 1
  {
    if local == [] then
      [c.initial]
    else
      var n := |local| - 1;
      var before := Worlds(c, local[..n], remote[..n]);
      before + [NextWorld(c, before[n], local[n], remote[n])]
  }

  function Hashes(worlds: seq<World>): (r: seq<u64>)
    ensures |r| == |worlds|
  {
    seq(|worlds|, i requires 0 <= i < |worlds| => HashCanonical(worlds[i]))
  }

  lemma {:induction false} WorldsOfPrefix(c: Config, local: seq<InputFrame>, remote: seq<InputFrame>, n: nat)
    requires |local| == |remote| && n <= |local|
    ensures Worlds(c, local[..n], remote[..n]) == Worlds(c, local, remote)[..n + 1]
  {
    hide NextWorld;
    if n == |local| {
      assert local[..n] == local && remote[..n] == remote;
    } else {
      var m := |local| - 1;
      WorldsOfPrefix(c, local[..m], remote[..m], n);
      assert local[..m][..n] == local[..n] && remote[..m][..n] == remote[..n];
    }
  }

  lemma WorldsStep(c: Config, local: seq<InputFrame>, remote: seq<InputFrame>, n: nat)
    requires |local| == |remote| && n < |local|
    ensures Worlds(c, local, remote)[0] == c.initial
    ensures Worlds(c, local, remote)[n + 1] == NextWorld(c, Worlds(c, local, remote)[n], local[n], remote[n])
  {
    hide NextWorld;
    WorldsOfPrefix(c, local, remote, n + 1);
    WorldsOfPrefix(c, local, remote, n);
    WorldsOfPrefix(c, local, remote, 0);
    assert local[..n + 1][..n] == local[..n] && remote[..n + 1][..n] == remote[..n];
  }

  /** Boundary n depends on the first n inputs only, and on remote inputs only through their buttons. */
  lemma {:induction false} WorldsSeeButtons(c: Config, local: seq<InputFrame>, remote: seq<InputFrame>,
      other: seq<InputFrame>, n: nat)
    requires |local| == |remote| && n <= |local| && n <= |other|
    requires forall i :: 0 <= i < n ==> remote[i].buttons == other[i].buttons
    ensures Worlds(c, local, remote)[n] == Worlds(c, local[..n], other[..n])[n]
  {
    hide Worlds, NextWorld;
    if n == 0 {
      FirstWorld(c, local, remote);
      FirstWorld(c, local[..0], other[..0]);
    } else {
      WorldsSeeButtons(c, local, remote, other, n - 1);
      SameButtons(c, Worlds(c, local, remote)[n - 1], local[n - 1], remote[n - 1], other[n - 1]);
      WorldsStep(c, local, remote, n - 1);
      WorldsStep(c, local[..n], other[..n], n - 1);
      WorldsOfPrefix(c, local[..n], other[..n], n - 1);
      assert local[..n][..n - 1] == local[..n - 1] && other[..n][..n - 1] == other[..n - 1];
    }
  }

  lemma FirstWorld(c: Config, local: seq<InputFrame>, remote: seq<InputFrame>)
    requires |local| == |remote|
    ensures Worlds(c, local, remote)[0] == c.initial
  {
    hide NextWorld;
    WorldsOfPrefix(c, local, remote, 0);
  }

  lemma SameButtons(c: Config, w: World, local: InputFrame, remote: InputFrame, other: InputFrame)
    requires remote.buttons == other.buttons
    ensures NextWorld(c, w, local, remote) == NextWorld(c, w, local, other)
  {
    hide Next;
  }

  // ---- Prediction ----

  /** The nearest known input at most 256 frames back, looking from `offset` on; neutral when there is none. */
  ghost function PredictedFrom(c: Config, known: map<int, InputFrame>, frame: int, offset: nat): InputFrame
    decreases CAPACITY - offset
  {
    if offset > CAPACITY then
      InputFrame(Tag(frame), Other(c.local), 0, 0)
    else if frame - offset in known then
      known[frame - offset].(frame := Tag(frame))
    else
      PredictedFrom(c, known, frame, offset + 1)
  }

  ghost function Predicted(c: Config, known: map<int, InputFrame>, frame: int): InputFrame {
    PredictedFrom(c, known, frame, 1)
  }

  ghost function ActualOrPredicted(c: Config, known: map<int, InputFrame>, frame: int): InputFrame {
    if frame in known then known[frame] else Predicted(c, known, frame)
  }

  ghost function Extrapolated(c: Config, known: map<int, InputFrame>, from: int, count: nat): (r: seq<InputFrame>)
    ensures |r| == count
    ensures forall i :: 0 <= i < count ==> r[i] == ActualOrPredicted(c, known, from + i)
  {
    seq(count, i => ActualOrPredicted(c, known, from + i))
  }

  // ---- The session ----

  datatype Timeline = Timeline(
    config: Config,
    local: seq<InputFrame>,        // local[i] is the input of frame base + i
    used: seq<InputFrame>,         // the remote input each frame was last simulated with
    known: map<int, InputFrame>,   // the remote inputs still retained
    dirty: Option<int>,
    confirmed: int,
    counters: Counters)
  {
    function Base(): int { config.initial.frame }

    function Now(): int { Base() + |local| }

    function Remote(): PlayerId { Other(config.local) }

    /** A frame simulated at most 256 frames ago. */
    predicate Retained(frame: int) { Base() <= frame < Now() && Now() - CAPACITY <= frame }

    function AllWorlds(): seq<World>
      requires |local| == |used|
    {
      Worlds(config, local, used)
    }

    function State(): World
      requires |local| == |used|
    {
      AllWorlds()[|local|]
    }

    predicate WorldsAreSound() {
      Sound(config.initial) && config.initial.nextId + 2 * |local| < U32
    }

    predicate InputsAreTagged() {
      && (forall i :: 0 <= i < |local| ==> local[i].frame == Tag(Base() + i) && local[i].player == config.local)
      && (forall i :: 0 <= i < |used| ==> used[i].frame == Tag(Base() + i) && used[i].player == Remote())
      && (forall k :: k in known ==>
            known[k].frame == Tag(k) && known[k].player == Remote() && Base() - HALF <= k < Base() + HALF)
    }

    predicate DirtyIsServiceable() {
      dirty.Some? ==> Retained(dirty.value) && Now() - dirty.value <= config.maxRollback && confirmed <= dirty.value
    }

    /** What every operation keeps. */
    predicate Valid() {
      && |used| == |local|
      && WorldsAreSound()
      && InputsAreTagged()
      && DirtyIsServiceable()
      && Base() <= confirmed <= Now()
    }

    /** The next frame cannot run out of projectile ids, and frame tags stay within half their range. */
    predicate HasRoom() { config.initial.nextId + 2 * (|local| + 1) < U32 }

    // ---- update_confirmation ----

    predicate Confirmable(frame: int) {
      Retained(frame) && frame in known && !(dirty.Some? && dirty.value <= frame)
    }

    function ConfirmedFrom(frame: int): (r: int)
      decreases Now() - frame
    {
      if Confirmable(frame) then ConfirmedFrom(frame + 1) else frame
    }

    function Confirm(): Timeline { this.(confirmed := ConfirmedFrom(confirmed)) }

    // ---- flush_corrections ----

    ghost function ResimulatedInputs(): (r: seq<InputFrame>)
      requires Valid()
      ensures |r| == |local|
    {
      if dirty.None? then used
      else used[..dirty.value - Base()] + Extrapolated(config, known, dirty.value, Now() - dirty.value)
    }

    ghost function Resimulated(): Timeline
      requires Valid() && dirty.Some?
    {
      var depth := Now() - dirty.value;
      this.(used := ResimulatedInputs(), dirty := None,
            counters := counters.(rollbacks := counters.rollbacks + 1,
                                  resimulated := counters.resimulated + depth,
                                  deepest := if depth > counters.deepest then depth else counters.deepest))
    }

    ghost function Flushed(): Timeline
      requires Valid()
    {
      if dirty.None? then Confirm() else Resimulated().Confirm()
    }

    // ---- advance ----

    predicate Accepts(input: InputFrame) { input.frame == Tag(Now()) && input.player == config.local }

    /** One more simulated frame; there is nothing left to correct. */
    ghost function Extended(input: InputFrame): Timeline {
      this.(local := local + [input], used := used + [ActualOrPredicted(config, known, Now())],
            counters := counters.(predicted := counters.predicted + if Now() in known then 0 else 1))
    }

    /** A pending correction is made first, even when the input is then refused. */
    ghost function Advanced(input: InputFrame): Timeline
      requires Valid()
    {
      var ready := if dirty.Some? then Flushed() else this;
      if ready.Accepts(input) then ready.Extended(input).Confirm() else ready
    }

    // ---- ingest_remote ----

    ghost function IngestError(input: InputFrame): Option<ErrorCode> {
      if input.player != Remote() then Some(InvalidArgument)
      else if Now() - Nearest(Now(), input.frame) > config.maxRollback then Some(RollbackWindowExceeded)
      else None
    }

    /**
     * The frame an input with this tag is kept at: the nearest one, except that a tag 2^31 or more past the first
     * boundary cannot be told from the frame 2^32 earlier.
     */
    ghost function Placed(tag: u32): int {
      var near := Nearest(Now(), tag);
      if near < Base() + HALF then near else near - U32
    }

    /** A late input that differs from the one its frame was simulated with. */
    predicate Contradicts(frame: int, input: InputFrame)
      requires |used| == |local|
    {
      Retained(frame) && used[frame - Base()].buttons != input.buttons
    }

    ghost function Marked(frame: int): Timeline {
      this.(dirty := if dirty.None? || frame < dirty.value then Some(frame) else dirty,
            confirmed := if frame < confirmed then frame else confirmed)
    }

    /** The tag of such a frame is before the tag of the present. */
    predicate Late(frame: int) { Now() - HALF < frame < Now() }

    ghost function StoredInput(frame: int, input: InputFrame): Timeline {
      this.(known := Stored(known, frame, input),
            counters := counters.(late := counters.late + if Late(frame) && frame !in known then 1 else 0))
    }

    ghost function Received(frame: int, input: InputFrame): Timeline
      requires |used| == |local|
    {
      var stored := StoredInput(frame, input);
      if Contradicts(frame, input) then stored.Marked(frame) else stored
    }

    ghost function Ingested(input: InputFrame): Timeline
      requires Valid()
    {
      if IngestError(input).Some? then this else Received(Placed(input.frame), input).Confirm()
    }

    // ---- queries ----

    /** A boundary whose hash is still in the ring. */
    predicate Hashed(frame: int) { Base() <= frame <= Now() && Now() - CAPACITY < frame }

    ghost function HashAnswer(boundary: u32): Result<u64>
      requires |used| == |local|
    {
      var frame := Nearest(confirmed, boundary);
      if frame <= confirmed && Hashed(frame) then Ok(HashCanonical(AllWorlds()[frame - Base()])) else Err(StaleFrame)
    }

    ghost function StateAnswer(boundary: u32): Result<World>
      requires |used| == |local|
    {
      var frame := Nearest(confirmed, boundary);
      if frame <= confirmed
        && (Retained(frame) || frame == Now()) then Ok(AllWorlds()[frame - Base()]) else Err(StaleFrame)
    }

    ghost function InputAnswer(player: PlayerId, tag: u32): Result<InputFrame> {
      var frame := Nearest(confirmed, tag);
      if frame >= confirmed then Err(StaleFrame)
      else if player == config.local then (if Retained(frame) then Ok(local[frame - Base()]) else Err(StaleFrame))
      else if frame in known then Ok(known[frame])
      else Err(StaleFrame)
    }
  }

  /** What a correction says it did is what it did: a rollback counted, frames resimulated, everything earlier kept. */
  ghost predicate Reported(before: Timeline, after: Timeline, r: CorrectionResult) {
    && after.counters.rollbacks == before.counters.rollbacks + (if r.performed then 1 else 0)
    && after.counters.resimulated == before.counters.resimulated + r.resimulatedFrames
    && after.counters.deepest >= before.counters.deepest && after.counters.deepest >= r.resimulatedFrames
    && after.counters.deepest in {before.counters.deepest, r.resimulatedFrames}
    && after.counters.predicted == before.counters.predicted && after.counters.late == before.counters.late
    && r.performed == before.dirty.Some? && |after.used| == |before.used| == |before.local|
    && (r.performed ==>
          var f := before.dirty.value;
          && r.rollbackFrom == Tag(f) && r.resimulatedFrames == before.Now() - f && before.Base() <= f < before.Now()
          && forall i :: 0 <= i < f - before.Base() ==> after.used[i] == before.used[i])
    && (!r.performed ==> r.rollbackFrom == 0 && r.resimulatedFrames == 0 && after.used == before.used)
  }

  function Start(c: Config): Timeline {
    Timeline(c, [], [], map[], None, c.initial.frame, Counters(0, 0, 0, 0, 0))
  }

  /** `w` is boundary `frame` of `t`. */
  ghost predicate IsBoundary(t: Timeline, frame: int, w: World) {
    |t.used| == |t.local| && t.Base() <= frame <= t.Now() && w == t.AllWorlds()[frame - t.Base()]
  }

  // ---- Validity is kept ----

  lemma PredictionIsTagged(t: Timeline, frame: int, offset: nat)
    requires t.InputsAreTagged()
    ensures PredictedFrom(t.config, t.known, frame, offset).frame == Tag(frame)
    ensures PredictedFrom(t.config, t.known, frame, offset).player == t.Remote()
    decreases CAPACITY - offset
  {
  }

  /** The boundary moves exactly over the confirmable frames. */
  lemma {:induction false} ConfirmedRange(t: Timeline, frame: int)
    ensures frame <= t.ConfirmedFrom(frame) && (frame <= t.Now() ==> t.ConfirmedFrom(frame) <= t.Now())
    ensures forall f :: frame <= f < t.ConfirmedFrom(frame) ==> t.Confirmable(f)
    ensures !t.Confirmable(t.ConfirmedFrom(frame))
    decreases t.Now() - frame
  {
    if t.Confirmable(frame) {
      ConfirmedRange(t, frame + 1);
    }
  }

  lemma ConfirmedStep(t: Timeline, frame: int)
    ensures t.ConfirmedFrom(frame) == if t.Confirmable(frame) then t.ConfirmedFrom(frame + 1) else frame
  {
  }

  /** `update_confirmation` stops: 257 consecutive frames are never all retained. */
  lemma ConfirmationIsBounded(t: Timeline, frame: int)
    ensures t.ConfirmedFrom(frame) - frame <= CAPACITY
  {
    var r := t.ConfirmedFrom(frame);
    ConfirmedRange(t, frame);
    if r > frame {
      assert t.Confirmable(frame) && t.Confirmable(r - 1);
    }
  }

  lemma Boundaries(t: Timeline)
    requires t.Valid()
    ensures t.Base() <= t.confirmed <= t.Now() && |t.used| == |t.local|
    ensures t.dirty.Some? ==> t.Retained(t.dirty.value) && t.confirmed <= t.dirty.value
  {
  }

  lemma StartIsValid(c: Config)
    requires Sound(c.initial)
    ensures Start(c).Valid()
  {
    hide Sound;
  }

  lemma ResimulatedIsValid(t: Timeline)
    requires t.Valid() && t.dirty.Some?
    ensures t.Resimulated().Valid()
  {
    hide Sound, ActualOrPredicted;
    forall i | 0 <= i < |t.ResimulatedInputs()|
      ensures t.ResimulatedInputs()[i].frame == Tag(t.Base() + i) && t.ResimulatedInputs()[i].player == t.Remote()
    {
      ActualOrPredictedIsTagged(t, t.Base() + i);
    }
  }

  lemma FlushedIsValid(t: Timeline)
    requires t.Valid()
    ensures t.Flushed().Valid() && t.Flushed().dirty.None? && t.Flushed().local == t.local
  {
    hide Sound;
    if t.dirty.Some? {
      ResimulatedIsValid(t);
      ConfirmIsValid(t.Resimulated());
    } else {
      ConfirmIsValid(t);
    }
  }

  lemma ActualOrPredictedIsTagged(t: Timeline, frame: int)
    requires t.InputsAreTagged()
    ensures ActualOrPredicted(t.config, t.known, frame).frame == Tag(frame)
    ensures ActualOrPredicted(t.config, t.known, frame).player == t.Remote()
  {
    PredictionIsTagged(t, frame, 1);
  }

  lemma ExtendedIsValid(t: Timeline, input: InputFrame)
    requires t.Valid() && t.dirty.None? && t.HasRoom() && t.Accepts(input)
    ensures t.Extended(input).Valid()
  {
    hide Sound, ActualOrPredicted;
    ActualOrPredictedIsTagged(t, t.Now());
  }

  lemma AdvancedIsValid(t: Timeline, input: InputFrame)
    requires t.Valid() && t.HasRoom()
    ensures t.Advanced(input).Valid() && t.Advanced(input).dirty.None?
  {
    hide Sound;
    var ready := if t.dirty.Some? then t.Flushed() else t;
    if t.dirty.Some? {
      FlushedIsValid(t);
    }
    if ready.Accepts(input) {
      ExtendedIsValid(ready, input);
      ConfirmIsValid(ready.Extended(input));
    }
  }

  lemma ConfirmIsValid(t: Timeline)
    requires t.Valid()
    ensures t.Confirm().Valid()
  {
    hide Sound;
    ConfirmedRange(t, t.confirmed);
    assert t.dirty.Some? ==> !t.Confirmable(t.dirty.value);
  }

  lemma StoredInputIsValid(t: Timeline, frame: int, input: InputFrame)
    requires t.Valid() && input.frame == Tag(frame) && input.player == t.Remote()
    requires t.Base() - HALF <= frame < t.Base() + HALF
    ensures t.StoredInput(frame, input).Valid()
  {
    hide Sound, Tag;
  }

  lemma ReceivedIsValid(t: Timeline, frame: int, input: InputFrame)
    requires t.Valid() && input.frame == Tag(frame) && input.player == t.Remote()
    requires t.Base() - HALF <= frame < t.Base() + HALF
    requires t.Retained(frame) ==> t.Now() - frame <= t.config.maxRollback
    ensures t.Received(frame, input).Valid()
  {
    hide Sound, Tag;
    StoredInputIsValid(t, frame, input);
  }

  lemma IngestedIsValid(t: Timeline, input: InputFrame)
    requires t.Valid()
    ensures t.Ingested(input).Valid()
  {
    hide Sound, Timeline.Placed, Tag;
    if t.IngestError(input).None? {
      var frame := t.Placed(input.frame);
      PlacedIsFaithful(t, input.frame);
      ReceivedIsValid(t, frame, input);
      ConfirmIsValid(t.Received(frame, input));
    }
  }

  /** Placing keeps the tag, its order with the present, and the distance of whatever is late. */
  lemma PlacedIsFaithful(t: Timeline, tag: u32)
    requires t.Valid()
    ensures Tag(t.Placed(tag)) == tag && t.Base() - HALF <= t.Placed(tag) < t.Base() + HALF
    ensures FrameBefore(tag, Tag(t.Now())) <==> t.Late(t.Placed(tag))
    ensures t.Late(t.Placed(tag)) ==> FrameDistance(tag, Tag(t.Now())) == t.Now() - t.Placed(tag)
    ensures t.Late(t.Placed(tag)) || t.Retained(t.Placed(tag)) ==> t.Placed(tag) == Nearest(t.Now(), tag)
    ensures !t.Late(t.Placed(tag)) ==> Nearest(t.Now(), tag) >= t.Now()
  {
    hide Sound, Nearest, FrameBefore, FrameDistance;
    NearestIsNear(t.Now(), tag);
    TagDifference(Nearest(t.Now(), tag), Nearest(t.Now(), tag) - U32);
  }

  /** A frame of the first 2^31 is kept as itself. */
  lemma PlacedFrame(t: Timeline, frame: int)
    requires t.Valid() && t.Base() <= frame < t.Base() + HALF
    ensures t.Placed(Tag(frame)) == Nearest(t.Now(), Tag(frame)) == frame
  {
    hide Sound, Nearest, Tag;
    TagsRefineFrames(frame, t.Now());
  }

  lemma NearestIsNear(now: int, frame: u32)
    ensures now - HALF < Nearest(now, frame) <= now + HALF
    ensures Tag(Nearest(now, frame)) == frame
    ensures FrameBefore(frame, Tag(now)) <==> Nearest(now, frame) < now
    ensures Nearest(now, frame) < now ==> FrameDistance(frame, Tag(now)) == now - Nearest(now, frame)
  {
    var near := Nearest(now, frame);
    var q := (frame - now) / U32;
    assert frame - now == q * U32 + (frame - now) % U32;
    assert (near - frame) % U32 == 0;
    TagDifference(frame, near);
    TagDifference(near, now);
    SmallMod(now - near);
  }

  /** Every boundary of a valid session is sound, carries its frame's tag, and was stepped without error. */
  lemma {:induction false} BoundaryIsSound(t: Timeline, n: nat)
    requires t.Valid() && n <= |t.local|
    ensures Sound(t.AllWorlds()[n]) && t.AllWorlds()[n].frame == Tag(t.Base() + n)
    ensures t.AllWorlds()[n].nextId <= t.config.initial.nextId + 2 * n
  {
    hide Sound, Next;
    if n == 0 {
      WorldsOfPrefix(t.config, t.local, t.used, 0);
    } else {
      BoundaryIsSound(t, n - 1);
      WorldsStep(t.config, t.local, t.used, n - 1);
      var pair := MakePair(t.config, t.local[n - 1], t.used[n - 1]);
      NextIsSound(t.AllWorlds()[n - 1], pair.a.buttons, pair.b.buttons, t.config.variant);
      NextTag(t.Base() + n - 1);
    }
  }
}
