/** `RollbackSession` over tagged rings, proved to implement a timeline (src/netcode/session.cpp). */
module Sessions {
  import opened Core
  import opened FrameRings
  import opened Simulation
  import opened SimulationLaws
  import opened Canonical
  import opened Storages
  import opened Timelines

  /** The rings hold the newest 256 entries of these histories, and exactly the inputs `known`. */
  ghost predicate Holds(rings: Rings, first: int, local: seq<InputFrame>, used: seq<InputFrame>,
                        known: map<int, InputFrame>, worlds: seq<World>, hashed: seq<u64>) {
    && Newest(rings.local, first, local)
    && Newest(rings.used, first, used)
    && rings.remote == known
    && Newest(rings.snapshots, first, worlds)
    && Newest(rings.hashes, first, hashed)
  }

  ghost predicate Caches(rings: Rings, t: Timeline) {
    && |t.used| == |t.local|
    && Holds(rings, t.Base(), t.local, t.used, t.known, t.AllWorlds()[..|t.local|], Hashes(t.AllWorlds()))
  }

  lemma HeldAt(rings: Rings, first: int, local: seq<InputFrame>, used: seq<InputFrame>, known: map<int, InputFrame>,
      worlds: seq<World>, hashed: seq<u64>, i: nat)
    requires Holds(rings, first, local, used, known, worlds, hashed) && i < |local| && |local| - CAPACITY <= i
    ensures first + i in rings.local && rings.local[first + i] == local[i] && rings.remote == known
  {
  }

  /** Storing frame `i` again replaces its snapshot, used input and hash, and nothing else. */
  lemma HoldsAgain(rings: Rings, first: int, local: seq<InputFrame>, used: seq<InputFrame>, known: map<int, InputFrame>,
      worlds: seq<World>, hashed: seq<u64>, i: nat, w: World, remote: InputFrame, stateHash: u64)
    requires Holds(rings, first, local, used, known, worlds, hashed)
    requires |local| == |used| == |worlds| == |hashed| - 1 && i < |local| && |local| - CAPACITY <= i
    ensures Holds(rings.(snapshots := Stored(rings.snapshots, first + i, w),
                         used := Stored(rings.used, first + i, remote),
                         hashes := Stored(rings.hashes, first + i + 1, stateHash)),
                  first, local, used[i := remote], known, worlds[i := w], hashed[i + 1 := stateHash])
  {
    hide Stored;
    StoreAgain(rings.snapshots, first, worlds, first + i, w);
    StoreAgain(rings.used, first, used, first + i, remote);
    StoreAgain(rings.hashes, first, hashed, first + i + 1, stateHash);
  }

  lemma StartIsCached(rings: Rings, c: Config)
    requires rings == Rings(map[], map[], map[], map[], Stored(map[], c.initial.frame, HashCanonical(c.initial)))
    ensures Caches(rings, Start(c)) && IsBoundary(Start(c), c.initial.frame, c.initial)
  {
    hide HashCanonical, NextWorld, Stored;
    StoreNext(map[], c.initial.frame, [], HashCanonical(c.initial));
    assert Hashes(Worlds(c, [], [])) == [] + [HashCanonical(c.initial)];
  }

  class RollbackSession {
    const config: Config
    var state: World
    const storage: Storage
    var earliestDirty: Option<u32>
    var confirmedFrame: u32
    var counters: Counters
    /** The same session in unbounded time. */
    ghost var timeline: Timeline

    ghost predicate Stores()
      reads storage.repr
    {
      storage.Valid() && storage.origin == config.initial.frame - HALF && this !in storage.repr
    }

    ghost predicate Mirrors(t: Timeline)
      reads this
    {
      && earliestDirty == (if t.dirty.Some? then Some(Tag(t.dirty.value)) else None)
      && confirmedFrame == Tag(t.confirmed)
      && counters == t.counters
    }

    /** `t` is this session in unbounded time. */
    ghost predicate Implements(t: Timeline)
      reads this, storage.repr
    {
      Stores() && t.Valid() && t.config == config && Caches(storage.View(), t) && IsBoundary(t, t.Now(), state)
        && Mirrors(t)
    }

    ghost predicate Valid()
      reads this, storage.repr
    {
      Implements(timeline)
    }

    lemma RingsAreAnchored()
      requires Valid()
      ensures storage.Valid() && this !in storage.repr && storage.origin == timeline.Base() - HALF
      ensures timeline.config == config && timeline.Valid() && timeline.Now() < timeline.Base() + HALF
    {
      hide Sound, Caches, Storage.Valid;
    }

    lemma RingsAnswer()
      requires Valid()
      ensures storage.Valid() && this !in storage.repr && storage.origin == timeline.Base() - HALF
      ensures timeline.config == config && timeline.Valid() && timeline.Now() < timeline.Base() + HALF
      ensures storage.View().remote == timeline.known
      ensures forall f :: f in storage.View().local <==> timeline.Retained(f)
      ensures forall f :: f in storage.View().local ==> storage.View().local[f] == timeline.local[f - timeline.Base()]
      ensures forall f :: f in storage.View().used <==> timeline.Retained(f)
      ensures forall f :: f in storage.View().used ==> storage.View().used[f] == timeline.used[f - timeline.Base()]
    {
      hide Sound, Worlds, Hashes, Storage.Valid;
    }

    constructor (c: Config)
      requires Sound(c.initial)
      ensures Valid() && timeline == Start(c) && config == c && fresh(storage.repr)
    {
      hide HashCanonical, Caches, IsBoundary, Timeline.Valid, Storage.Valid, Sound, Stored;
      StartIsValid(c);
      var boundaryHash := HashOf(c.initial);
      var s := new Storage(c.initial.frame - HALF);
      s.PutHash(c.initial.frame, boundaryHash, c.initial.frame);
      StartIsCached(s.View(), c);
      config := c;
      state := c.initial;
      storage := s;
      earliestDirty := None;
      confirmedFrame := c.initial.frame;
      counters := Counters(0, 0, 0, 0, 0);
      timeline := Start(c);
    }

    method PredictedRemote(frame: u32, ghost known: map<int, InputFrame>, ghost number: int) returns (r: InputFrame)
      requires Stores() && storage.View().remote == known
      requires frame == Tag(number) && config.initial.frame <= number < config.initial.frame + HALF
      ensures r == Predicted(config, known, number)
    {
      hide Storage.Valid, Storage.View;
      for offset := 1 to CAPACITY + 1
        invariant Predicted(config, known, number) == PredictedFrom(config, known, number, offset)
        modifies {}
      {
        var previous: u32 := (frame - offset) % U32;
        TagDifference(offset, number);
        var found := storage.GetRemote(previous, number - offset);
        if found.Ok? {
          return found.value.(frame := frame);
        }
      }
      r := InputFrame(frame, Other(config.local), 0, 0);
    }

    method RemoteInputFor(frame: u32, ghost known: map<int, InputFrame>, ghost number: int)
      returns (r: InputFrame, predicted: bool)
      requires Stores() && storage.View().remote == known
      requires frame == Tag(number) && config.initial.frame <= number < config.initial.frame + HALF
      ensures r == ActualOrPredicted(config, known, number) && (predicted <==> number !in known)
    {
      hide Storage.Valid, Storage.View, Predicted, Tag;
      var actual := storage.GetRemote(frame, number);
      predicted := actual.Err?;
      if predicted {
        r := PredictedRemote(frame, known, number);
      } else {
        r := actual.value;
      }
    }

    method NextState(local: InputFrame, remote: InputFrame) returns (r: World)
      requires Sound(state) && HasIds(state)
      requires local.frame == remote.frame == state.frame && local.player == config.local
        && remote.player == Other(config.local)
      ensures r == NextWorld(config, state, local, remote) && r.frame == NextFrame(state.frame)
    {
      var pair := MakePair(config, local, remote);
      SimulatedIsNext(state, pair, config.variant);
      hide Sound, Simulated, Next;
      var simulated := SimulateFrame(state, state.frame, pair, config.variant);
      if simulated.Err? {
        assert false;
      }
      r := simulated.value;
    }

    method UpdateConfirmation()
      requires Valid()
      modifies this`confirmedFrame, this`timeline
      ensures Valid() && timeline == old(timeline).Confirm()
    {
      hide Caches, IsBoundary, Storage.Valid, Storage.View, Timeline.Valid, Timeline.ConfirmedFrom, Tag, FrameBefore,
           NextFrame;
      RingsAnswer();
      Boundaries(timeline);
      var boundary := confirmedFrame;
      ghost var number := timeline.confirmed;
      while true
        invariant timeline.confirmed <= number <= timeline.Now() && boundary == Tag(number)
        invariant timeline.ConfirmedFrom(number) == timeline.ConfirmedFrom(timeline.confirmed)
        decreases timeline.Now() - number
        modifies {}
      {
        ConfirmedStep(timeline, number);
        var both := storage.HasBothInputs(boundary, number);
        if !both {
          break;
        }
        if timeline.dirty.Some? {
          TagOrder(timeline.dirty.value, number);
        }
        if earliestDirty.Some? && (boundary == earliestDirty.value || FrameBefore(earliestDirty.value, boundary)) {
          break;
        }
        NextTag(number);
        boundary := NextFrame(boundary);
        number := number + 1;
      }
      assert number == timeline.ConfirmedFrom(timeline.confirmed);
      ConfirmIsValid(timeline);
      SameHistories(timeline, timeline.Confirm(), storage.View());
      confirmedFrame := boundary;
      timeline := timeline.Confirm();
    }

    // ---- flush_corrections ----

    /** Write the snapshot and the used remote input of `frame` again. */
    method RewriteFrame(frame: u32, ghost number: int, ghost known: map<int, InputFrame>)
      returns (localInput: InputFrame, remote: InputFrame)
      requires Stores() && storage.View().remote == known && number in storage.View().local && frame == Tag(number)
      requires config.initial.frame <= number < config.initial.frame + HALF
      modifies storage.repr
      ensures Stores() && localInput == old(storage.View().local[number])
      ensures remote == ActualOrPredicted(config, known, number)
      ensures storage.View() == old(storage.View()).(snapshots := Stored(old(storage.View().snapshots), number, state),
                                                     used := Stored(old(storage.View().used), number, remote))
    {
      hide Storage.Valid, Storage.View, Stored, Tag, ActualOrPredicted;
      var found := storage.GetLocal(frame, number);
      if found.Err? {
        assert false;
      }
      localInput := found.value;
      storage.PutSnapshot(frame, state, number);
      var predicted;
      remote, predicted := RemoteInputFor(frame, known, number);
      storage.PutUsed(frame, remote, number);
    }

    /** Simulate the retained frame `number` again from `state` and rewrite its snapshot, used input and hash. */
    method ResimulateFrame(frame: u32, ghost number: int, ghost i: nat, ghost local: seq<InputFrame>,
                           ghost used: seq<InputFrame>, ghost known: map<int, InputFrame>,
                           ghost worlds: seq<World>, ghost hashed: seq<u64>)
      requires Stores() && Holds(storage.View(), config.initial.frame, local, used, known, worlds, hashed)
      requires |local| == |used| == |worlds| == |hashed| - 1 && i < |local| && |local| - CAPACITY <= i && |local| < HALF
      requires number == config.initial.frame + i && frame == Tag(number) && state.frame == frame
      requires local[i].frame == frame && local[i].player == config.local
      requires ActualOrPredicted(config, known, number).frame == frame
      requires ActualOrPredicted(config, known, number).player == Other(config.local)
      requires Sound(state) && HasIds(state)
      modifies this`state, storage.repr
      ensures Stores()
      ensures state == NextWorld(config, old(state), local[i], ActualOrPredicted(config, known, number))
      ensures Holds(storage.View(), config.initial.frame, local, used[i := ActualOrPredicted(config, known, number)],
        known,
                    worlds[i := old(state)], hashed[i + 1 := HashCanonical(state)])
    {
      hide Storage.Valid, Storage.View, Sound, HashCanonical, NextWorld, Stored, Tag, NextFrame, ActualOrPredicted,
           Newest, Holds;
      HeldAt(storage.View(), config.initial.frame, local, used, known, worlds, hashed, i);
      var localInput, remote := RewriteFrame(frame, number, known);
      var next := NextState(localInput, remote);
      NextTag(number);
      state := next;
      var stateHash := HashOf(state);
      storage.PutHash(state.frame, stateHash, number + 1);
      HoldsAgain(old(storage.View()), config.initial.frame, local, used, known, worlds, hashed, i, old(state), remote,
        stateHash);
    }

    method Resimulate(dirty: u32, depth: nat, snapshot: World)
      requires Valid() && timeline.dirty.Some? && dirty == Tag(timeline.dirty.value)
      requires depth == timeline.Now() - timeline.dirty.value
      requires IsBoundary(timeline, timeline.dirty.value, snapshot)
      modifies this`state, storage.repr
      ensures Stores() && Caches(storage.View(), timeline.Resimulated())
      ensures IsBoundary(timeline.Resimulated(), timeline.Now(), state)
    {
      hide Storage.Valid, Storage.View, Sound, HashCanonical, NextWorld, Worlds, Hashes, Tag, Holds, Timeline.Valid,
           ActualOrPredicted, Timeline.ResimulatedInputs, Mixed;
      RingsAnswer();
      Boundaries(timeline);
      ghost var t := timeline;
      ghost var first := t.dirty.value - t.Base();
      ghost var inputs := t.ResimulatedInputs();
      ghost var before, after := t.AllWorlds(), Worlds(config, t.local, inputs);
      ResimulationBegins(t);
      state := snapshot;
      for offset := 0 to depth
        invariant Stores() && state == after[first + offset]
        invariant Holds(storage.View(), config.initial.frame, t.local, Mixed(inputs, t.used, first + offset), t.known,
                        Mixed(after[..|t.local|], before[..|t.local|], first + offset),
                        Mixed(Hashes(after), Hashes(before), first + offset + 1))
        modifies this`state, storage.repr
      {
        ghost var i := first + offset;
        var frame: u32 := (dirty + offset) % U32;
        TagSum(t.dirty.value, offset);
        ResimulationStep(t, i);
        ResimulateFrame(frame, t.Base() + i, i, t.local, Mixed(inputs, t.used, i), t.known,
                        Mixed(after[..|t.local|], before[..|t.local|], i), Mixed(Hashes(after), Hashes(before), i + 1));
      }
      ResimulationEnds(t);
    }

    /** With every pending correction serviceable, no error of the source is reachable here. */
    method FlushCorrections() returns (r: Result<CorrectionResult>)
      requires Valid()
      modifies this, storage.repr
      ensures Valid() && timeline == old(timeline).Flushed()
      ensures r.Ok? && Reported(old(timeline), timeline, r.value)
    {
      hide Storage.Valid, Storage.View, Sound, Tag, FrameDistance, Timeline.Valid, Timeline.Confirm,
           Timeline.Resimulated, Caches, IsBoundary, Reported;
      RingsAreAnchored();
      Boundaries(timeline);
      FlushIsReported(timeline);
      if earliestDirty.None? {
        UpdateConfirmation();
        return Ok(CorrectionResult(false, 0, 0));
      }
      var dirty := earliestDirty.value;
      CorrectionIsServiceable(timeline);
      SnapshotAt(storage.View(), timeline, timeline.dirty.value);
      var depth := FrameDistance(dirty, state.frame);
      if depth > config.maxRollback {
        assert false;
      }
      var snapshot := storage.GetSnapshot(dirty, timeline.dirty.value);
      if snapshot.Err? {
        assert false;
      }
      Resimulate(dirty, depth, snapshot.value);
      earliestDirty := None;
      counters := counters.(rollbacks := counters.rollbacks + 1, resimulated := counters.resimulated + depth,
                            deepest := if depth > counters.deepest then depth else counters.deepest);
      ResimulatedIsValid(timeline);
      ResimulatedMirrors(timeline);
      timeline := timeline.Resimulated();
      UpdateConfirmation();
      r := Ok(CorrectionResult(true, dirty, depth));
    }

    // ---- ingest_remote ----

    method IngestRemote(remote: InputFrame) returns (r: Result<()>)
      requires Valid()
      modifies this, storage.repr
      ensures Valid() && timeline == old(timeline).Ingested(remote)
      ensures r == if old(timeline.IngestError(remote)).Some? then Err(old(timeline.IngestError(remote)).value)
                   else Ok(())
      ensures var late := (old(state.frame) - remote.frame) % U32;
        r == if remote.player == config.local then Err(InvalidArgument)
             else if config.maxRollback < late < HALF then Err(RollbackWindowExceeded)
             else Ok(())
    {
      hide Storage.Valid, Storage.View, Sound, Tag, Nearest, Timeline.Valid, Timeline.Confirm, Timeline.Received,
           Timeline.Placed, Timeline.Late, Caches, IsBoundary;
      if remote.player != Other(config.local) {
        return Err(InvalidArgument);
      }
      ghost var t := timeline;
      RingsAnswer();
      Boundaries(t);
      CurrentFrame(t);
      PlacedIsFaithful(t, remote.frame);
      var isLate := FrameBefore(remote.frame, state.frame);
      if isLate && FrameDistance(remote.frame, state.frame) > config.maxRollback {
        return Err(RollbackWindowExceeded);
      }
      AcceptRemote(remote, isLate, t.Placed(remote.frame));
      r := Ok(());
    }

    method AcceptRemote(remote: InputFrame, isLate: bool, ghost number: int)
      requires Valid() && remote.frame == Tag(number) && remote.player == timeline.Remote()
      requires (isLate <==> timeline.Late(number)) && timeline.Base() - HALF <= number < timeline.Base() + HALF
      requires timeline.Retained(number) ==> timeline.Now() - number <= timeline.config.maxRollback
      modifies this, storage.repr
      ensures Valid() && timeline == old(timeline).Received(number, remote).Confirm()
    {
      hide Storage.Valid, Storage.View, Sound, Tag, Stored, Timeline.Valid, Timeline.Confirm, Timeline.Received,
           Timeline.Contradicts, Timeline.StoredInput, Timeline.Marked, Timeline.Late, Caches, IsBoundary;
      ghost var t := timeline;
      ghost var stored := t.StoredInput(number, remote);
      RingsAnswer();
      Boundaries(t);
      var newlyObserved, contradicted := StoreRemote(remote, isLate, number, t);
      StoredMirrors(t, number, remote);
      StoredInputIsValid(t, number, remote);
      if isLate && newlyObserved {
        counters := counters.(late := counters.late + 1);
      }
      if contradicted {
        ContradictedIsRetained(t, number, remote);
        MarkDirty(remote.frame, stored, number);
      }
      ReceivedIsValid(t, number, remote);
      ReceivedMirrors(t, number, remote);
      timeline := t.Received(number, remote);
      UpdateConfirmation();
    }

    /** Keep a remote input; a late one is compared with the input its frame was simulated with. */
    method StoreRemote(remote: InputFrame, isLate: bool, ghost number: int, ghost t: Timeline)
      returns (newlyObserved: bool, contradicted: bool)
      requires Valid() && t == timeline && remote.frame == Tag(number) && (isLate <==> t.Late(number))
      requires t.Base() - HALF <= number < t.Base() + HALF
      modifies storage.repr
      ensures Stores() && Caches(storage.View(), t.Received(number, remote)) && |t.used| == |t.local|
      ensures forall f, w :: IsBoundary(t, f, w) ==> IsBoundary(t.Received(number, remote), f, w)
      ensures newlyObserved <==> number !in t.known
      ensures contradicted <==> t.Contradicts(number, remote)
    {
      hide Storage.Valid, Storage.View, Sound, Tag, Stored, Timeline.Valid, Timeline.Received, Caches, IsBoundary;
      RingsAnswer();
      Boundaries(t);
      var existing := storage.GetRemote(remote.frame, number);
      newlyObserved := existing.Err?;
      storage.PutRemote(remote.frame, remote, number);
      contradicted := false;
      if isLate {
        var used := storage.GetUsed(remote.frame, number);
        contradicted := used.Ok? && used.value.buttons != remote.buttons;
      }
      StoresRemote(old(storage.View()), storage.View(), t, number, remote);
    }

    /** In tags, exactly what `Marked` does in unbounded time: both marks go to the earlier frame, across wrap too. */
    method MarkDirty(frame: u32, ghost t: Timeline, ghost number: int)
      requires t.Valid() && t.Retained(number) && frame == Tag(number) && Mirrors(t)
      modifies this`earliestDirty, this`confirmedFrame
      ensures Mirrors(t.Marked(number))
    {
      hide Timeline.Valid, Tag, FrameBefore;
      TagOrders(t, number);
      if earliestDirty.None? || FrameBefore(frame, earliestDirty.value) {
        earliestDirty := Some(frame);
      }
      if FrameBefore(frame, confirmedFrame) {
        confirmedFrame := frame;
      }
    }

    // ---- advance ----

    method Advance(local: InputFrame) returns (r: Result<AdvanceResult>)
      requires Valid() && timeline.HasRoom()
      modifies this, storage.repr
      ensures Valid() && timeline == old(timeline).Advanced(local)
      ensures old(timeline).Accepts(local) ==>
          r == Ok(AdvanceResult(local.frame, old(timeline.Now() !in timeline.known), HashCanonical(timeline.State())))
          && timeline.counters.predicted == old(timeline.counters.predicted) + if r.value.predictedRemote then 1 else 0
      ensures !old(timeline).Accepts(local) ==> r == Err(FrameMismatch)
    {
      hide Storage.Valid, Storage.View, Sound, Tag, Timeline.Valid, Timeline.Confirm, Timeline.Flushed,
           Timeline.Extended, Caches, IsBoundary, HashCanonical;
      AdvanceCounts(timeline, local);
      if earliestDirty.Some? {
        var correction := FlushCorrections();
        FlushedKeepsFrame(old(timeline));
      }
      RingsAnswer();
      CurrentFrame(timeline);
      if local.frame != state.frame || local.player != config.local {
        return Err(FrameMismatch);
      }
      r := SimulateNext(local);
    }

    /** Simulate the current frame, filling its snapshot, input and hash slots. */
    method RecordFrame(local: InputFrame, ghost t: Timeline) returns (predicted: bool, stateHash: u64)
      requires Stores() && t.Valid() && t.config == config && Caches(storage.View(), t) && IsBoundary(t, t.Now(), state)
      requires t.HasRoom() && t.Accepts(local)
      modifies this`state, storage.repr
      ensures Stores() && Caches(storage.View(), t.Extended(local)) && IsBoundary(t.Extended(local), t.Now() + 1, state)
      ensures (predicted <==> t.Now() !in t.known) && stateHash == HashCanonical(state)
    {
      hide Storage.Valid, Storage.View, Sound, Tag, NextFrame, NextWorld, Stored, Timeline.Valid, Timeline.Extended,
           Caches, IsBoundary, HashCanonical, ActualOrPredicted;
      ghost var number := t.Now();
      Boundaries(t);
      CurrentFrame(t);
      NextInputIsTagged(t, storage.View());
      storage.PutSnapshot(state.frame, state, number);
      storage.PutLocal(local.frame, local, number);
      var remote: InputFrame;
      remote, predicted := RemoteInputFor(state.frame, t.known, number);
      storage.PutUsed(state.frame, remote, number);
      var next := NextState(local, remote);
      NextTag(number);
      state := next;
      stateHash := HashOf(state);
      storage.PutHash(state.frame, stateHash, number + 1);
      StoresFrame(old(storage.View()), storage.View(), t, local, old(state), state);
    }

    method SimulateNext(local: InputFrame) returns (r: Result<AdvanceResult>)
      requires Valid() && timeline.HasRoom() && timeline.dirty.None? && timeline.Accepts(local)
      modifies this, storage.repr
      ensures Valid() && timeline == old(timeline).Extended(local).Confirm()
      ensures r == Ok(AdvanceResult(local.frame, old(timeline.Now() !in timeline.known),
        HashCanonical(timeline.State())))
    {
      hide Storage.Valid, Storage.View, Sound, Tag, Timeline.Valid, Timeline.Confirm, Timeline.Extended,
           Timeline.HasRoom, Caches, IsBoundary, HashCanonical;
      ghost var t := timeline;
      RingsAnswer();
      CurrentFrame(t);
      var simulatedFrame := state.frame;
      var predicted, stateHash := RecordFrame(local, t);
      if predicted {
        counters := counters.(predicted := counters.predicted + 1);
      }
      ExtendedIsValid(t, local);
      ExtendedMirrors(t, local);
      timeline := t.Extended(local);
      UpdateConfirmation();
      StateOf(timeline, state);
      r := Ok(AdvanceResult(simulatedFrame, predicted, stateHash));
    }

    // ---- queries ----

    method Report() returns (r: SessionReport)
      requires Valid()
      ensures |timeline.used| == |timeline.local|
      ensures r == SessionReport(config.local, timeline.State(), Tag(timeline.confirmed), counters,
        HashCanonical(timeline.State()))
      ensures counters == timeline.counters
    {
      hide Storage.Valid, Storage.View, Tag, Timeline.Valid, Caches, IsBoundary, HashCanonical;
      StateOf(timeline, state);
      var finalHash := HashOf(state);
      r := SessionReport(config.local, state, confirmedFrame, counters, finalHash);
    }

    method HashAt(boundary: u32) returns (r: Result<u64>)
      requires Valid()
      ensures r == timeline.HashAnswer(boundary)
    {
      hide Storage.Valid, Storage.View, Sound, Tag, FrameBefore, Nearest, Timeline.Valid, Caches, HashCanonical, Worlds;
      if FrameBefore(confirmedFrame, boundary) {
        UnconfirmedTag(timeline, boundary);
        return Err(StaleFrame);
      }
      RingsAnswer();
      Boundaries(timeline);
      ghost var number := QueryFor(timeline, boundary);
      ConfirmedTag(timeline, boundary);
      HashesAnswer(storage.View(), timeline, number);
      r := storage.GetHash(boundary, number);
    }

    method StateAt(boundary: u32) returns (r: Result<World>)
      requires Valid()
      ensures r == timeline.StateAnswer(boundary)
    {
      hide Storage.Valid, Storage.View, Sound, Tag, FrameBefore, Nearest, Timeline.Valid, Caches, Worlds;
      if FrameBefore(confirmedFrame, boundary) {
        UnconfirmedTag(timeline, boundary);
        return Err(StaleFrame);
      }
      RingsAnswer();
      Boundaries(timeline);
      CurrentFrame(timeline);
      ghost var number := QueryFor(timeline, boundary);
      ConfirmedTag(timeline, boundary);
      if boundary == state.frame {
        return Ok(state);
      }
      SnapshotAt(storage.View(), timeline, number);
      r := storage.GetSnapshot(boundary, number);
    }

    method ConfirmedInput(player: PlayerId, frame: u32) returns (r: Result<InputFrame>)
      requires Valid()
      ensures r == timeline.InputAnswer(player, frame)
    {
      hide Storage.Valid, Storage.View, Sound, Tag, FrameBefore, Nearest, Timeline.Valid, Caches, IsBoundary;
      RingsAnswer();
      Boundaries(timeline);
      NearestIsNear(timeline.confirmed, frame);
      if !FrameBefore(frame, confirmedFrame) {
        return Err(StaleFrame);
      }
      ghost var number := Nearest(timeline.confirmed, frame);
      if player == config.local {
        r := storage.GetLocal(frame, number);
      } else {
        r := storage.GetRemote(frame, number);
      }
    }
  }

  lemma AdvanceCounts(t: Timeline, input: InputFrame)
    requires t.Valid()
    ensures t.Advanced(input).counters.predicted
         == t.counters.predicted + if t.Accepts(input) && t.Now() !in t.known then 1 else 0
  {
    hide Sound, ActualOrPredicted, Timeline.ConfirmedFrom;
  }

  lemma FlushIsReported(t: Timeline)
    requires t.Valid()
    ensures t.dirty.None? ==> t.Flushed() == t.Confirm() && Reported(t, t.Flushed(), CorrectionResult(false, 0, 0))
    ensures t.dirty.Some? ==>
        t.Now() >= t.dirty.value
        && Reported(t, t.Flushed(), CorrectionResult(true, Tag(t.dirty.value), t.Now() - t.dirty.value))
  {
    hide Sound, ActualOrPredicted;
  }

  lemma CurrentFrame(t: Timeline)
    requires t.Valid()
    ensures forall w :: IsBoundary(t, t.Now(), w) ==> w.frame == Tag(t.Now()) && w == t.State() && Sound(w)
    ensures t.HasRoom() ==> forall w :: IsBoundary(t, t.Now(), w) ==> HasIds(w)
  {
    hide Sound, Worlds;
    BoundaryIsSound(t, |t.local|);
  }

  lemma StateOf(t: Timeline, w: World)
    requires IsBoundary(t, t.Now(), w)
    ensures |t.used| == |t.local| && w == t.State()
  {
  }

  lemma NextInputIsTagged(t: Timeline, rings: Rings)
    requires t.Valid() && Caches(rings, t)
    ensures rings.remote == t.known && t.Base() - HALF < t.Base() <= t.Now()
      && (t.HasRoom() ==> t.Now() + 1 < t.Base() + HALF)
    ensures ActualOrPredicted(t.config, t.known, t.Now()).frame == Tag(t.Now())
    ensures ActualOrPredicted(t.config, t.known, t.Now()).player == t.Remote()
  {
    hide Sound, Worlds, Hashes;
    ActualOrPredictedIsTagged(t, t.Now());
  }

  lemma ContradictedIsRetained(t: Timeline, frame: int, input: InputFrame)
    requires |t.used| == |t.local| && t.Contradicts(frame, input)
    ensures t.Retained(frame)
  {
  }

  lemma TagOrders(t: Timeline, frame: int)
    requires t.Valid() && t.Retained(frame)
    ensures t.dirty.Some? ==> (FrameBefore(Tag(frame), Tag(t.dirty.value)) <==> frame < t.dirty.value)
    ensures FrameBefore(Tag(frame), Tag(t.confirmed)) <==> frame < t.confirmed
  {
    hide Sound;
    TagsRefineFrames(frame, t.confirmed);
    if t.dirty.Some? {
      TagsRefineFrames(frame, t.dirty.value);
    }
  }

  lemma StoredMirrors(t: Timeline, frame: int, input: InputFrame)
    ensures var u := t.StoredInput(frame, input);
      && u.config == t.config && u.Now() == t.Now() && u.dirty == t.dirty && u.confirmed == t.confirmed
      && u.counters == t.counters.(late := t.counters.late + if t.Late(frame) && frame !in t.known then 1 else 0)
      && (t.Retained(frame) ==> u.Retained(frame))
  {
  }

  lemma ReceivedMirrors(t: Timeline, frame: int, input: InputFrame)
    requires |t.used| == |t.local|
    ensures var u := t.Received(frame, input);
      && u.config == t.config && u.Now() == t.Now()
      && u == if t.Contradicts(frame, input) then t.StoredInput(frame, input).Marked(frame)
              else t.StoredInput(frame, input)
  {
  }

  lemma StoresRemote(before: Rings, after: Rings, t: Timeline, frame: int, input: InputFrame)
    requires Caches(before, t) && after == before.(remote := Stored(before.remote, frame, input))
    ensures Caches(after, t.Received(frame, input))
    ensures forall f, w :: IsBoundary(t, f, w) ==> IsBoundary(t.Received(frame, input), f, w)
  {
    hide Worlds, Hashes, Stored;
  }

  lemma ExtendedMirrors(t: Timeline, input: InputFrame)
    ensures var u := t.Extended(input);
      && u.config == t.config && u.dirty == t.dirty && u.confirmed == t.confirmed && u.Now() == t.Now() + 1
      && u.counters == t.counters.(predicted := t.counters.predicted + if t.Now() in t.known then 0 else 1)
  {
  }

  lemma StoresFrame(before: Rings, after: Rings, t: Timeline, local: InputFrame, w: World, next: World)
    requires t.Valid() && Caches(before, t) && IsBoundary(t, t.Now(), w)
    requires next == NextWorld(t.config, w, local, ActualOrPredicted(t.config, t.known, t.Now()))
    requires after == before.(
        snapshots := Stored(before.snapshots, t.Now(), w),
        local := Stored(before.local, t.Now(), local),
        used := Stored(before.used, t.Now(), ActualOrPredicted(t.config, t.known, t.Now())),
        hashes := Stored(before.hashes, t.Now() + 1, HashCanonical(next)))
    ensures Caches(after, t.Extended(local)) && IsBoundary(t.Extended(local), t.Now() + 1, next)
  {
    hide Sound, NextWorld, Stored, ActualOrPredicted, HashCanonical, Hashes, Worlds;
    var u := t.Extended(local);
    var n := |t.local|;
    StoreNext(before.snapshots, t.Base(), t.AllWorlds()[..n], w);
    StoreNext(before.local, t.Base(), t.local, local);
    StoreNext(before.used, t.Base(), t.used, ActualOrPredicted(t.config, t.known, t.Now()));
    StoreNext(before.hashes, t.Base(), Hashes(t.AllWorlds()), HashCanonical(next));
    ExtendedWorlds(t, local);
    assert u.AllWorlds()[..n + 1] == t.AllWorlds()[..n] + [w];
    HashesExtend(t.AllWorlds(), next);
  }

  lemma HashesExtend(worlds: seq<World>, next: World)
    ensures Hashes(worlds + [next]) == Hashes(worlds) + [HashCanonical(next)]
  {
    hide HashCanonical;
  }

  lemma ExtendedWorlds(t: Timeline, input: InputFrame)
    requires |t.used| == |t.local|
    ensures var u := t.Extended(input);
      u.AllWorlds() == t.AllWorlds() + [NextWorld(t.config, t.State(), input, ActualOrPredicted(t.config, t.known,
        t.Now()))]
  {
    hide NextWorld, ActualOrPredicted;
    var u := t.Extended(input);
    assert u.local[..|t.local|] == t.local && u.used[..|t.local|] == t.used;
  }

  /** The frame a boundary query looks up once it is not ahead of the confirmed boundary. */
  ghost function QueryFor(t: Timeline, boundary: u32): int {
    var frame := Nearest(t.confirmed, boundary);
    if frame > t.confirmed then frame - U32 else frame
  }

  lemma UnconfirmedTag(t: Timeline, boundary: u32)
    requires FrameBefore(Tag(t.confirmed), boundary)
    ensures Nearest(t.confirmed, boundary) > t.confirmed
  {
    hide Nearest, Tag, FrameBefore;
    var frame := Nearest(t.confirmed, boundary);
    NearestIsNear(t.confirmed, boundary);
    if frame <= t.confirmed {
      TagsRefineFrames(t.confirmed, frame);
    }
  }

  lemma ConfirmedTag(t: Timeline, boundary: u32)
    requires t.Valid() && !FrameBefore(Tag(t.confirmed), boundary)
    ensures Tag(QueryFor(t, boundary)) == boundary && t.Base() - HALF <= QueryFor(t, boundary) <= t.confirmed
    ensures QueryFor(t, boundary) >= t.Base() ==> QueryFor(t, boundary) == Nearest(t.confirmed, boundary)
    ensures QueryFor(t, boundary) < t.Base() ==>
        !(t.Base() <= Nearest(t.confirmed, boundary) <= t.confirmed)
    ensures boundary == Tag(t.Now()) ==> QueryFor(t, boundary) == t.Now()
  {
    hide Sound, Nearest, Tag, FrameBefore;
    var frame := Nearest(t.confirmed, boundary);
    NearestIsNear(t.confirmed, boundary);
    if frame > t.confirmed {
      if frame - t.confirmed < HALF {
        TagsRefineFrames(t.confirmed, frame);
        assert false;
      }
      OneTurnBack(frame);
    }
    if boundary == Tag(t.Now()) {
      SameTagWithinSpan(QueryFor(t, boundary), t.Now());
    }
  }

  lemma OneTurnBack(frame: int)
    ensures Tag(frame - U32) == Tag(frame)
  {
    TagDifference(frame, frame - U32);
  }

  lemma SameTagWithinSpan(a: int, b: int)
    requires -U32 < a - b < U32 && Tag(a) == Tag(b)
    ensures a == b
  {
    TagDifference(a, b);
    SmallMod(b - a);
  }

  lemma HashesAnswer(rings: Rings, t: Timeline, frame: int)
    requires Caches(rings, t)
    ensures frame in rings.hashes <==> t.Hashed(frame)
    ensures t.Hashed(frame) ==> rings.hashes[frame] == HashCanonical(t.AllWorlds()[frame - t.Base()])
  {
    hide Worlds, HashCanonical;
  }

  lemma FlushedKeepsFrame(t: Timeline)
    requires t.Valid()
    ensures t.Flushed().Now() == t.Now() && t.Flushed().config == t.config && t.Flushed().known == t.known
    ensures t.Flushed().local == t.local && t.Flushed().dirty.None?
  {
    hide Sound;
  }

  // ---- Resimulation ----

  ghost function Mixed<T>(a: seq<T>, b: seq<T>, n: nat): (r: seq<T>)
    requires n <= |a| == |b|
    ensures |r| == |a|
  {
    a[..n] + b[n..]
  }

  lemma MixStep<T>(a: seq<T>, b: seq<T>, n: nat)
    requires n < |a| == |b|
    ensures Mixed(a, b, n)[n := a[n]] == Mixed(a, b, n + 1)
  {
  }

  lemma MixEnds<T>(a: seq<T>, b: seq<T>, n: nat)
    requires n <= |a| == |b|
    ensures a[..n] == b[..n] ==> Mixed(a, b, n) == b
    ensures Mixed(a, b, |a|) == a
  {
    assert a[..n] == b[..n] ==> b[..n] + b[n..] == b;
  }

  lemma TagSum(frame: int, offset: nat)
    ensures (Tag(frame) + offset) % U32 == Tag(frame + offset)
  {
    assert frame + offset == (frame / U32) * U32 + (Tag(frame) + offset);
  }

  lemma ResimulationBegins(t: Timeline)
    requires t.Valid() && t.dirty.Some?
    ensures var first, n := t.dirty.value - t.Base(), |t.local|;
      var before, after := t.AllWorlds(), Worlds(t.config, t.local, t.ResimulatedInputs());
      && after[first] == before[first]
      && Mixed(t.ResimulatedInputs(), t.used, first) == t.used
      && Mixed(after[..n], before[..n], first) == before[..n]
      && Mixed(Hashes(after), Hashes(before), first + 1) == Hashes(before)
  {
    hide Sound, HashCanonical, Worlds, Mixed, ActualOrPredicted;
    var first, n := t.dirty.value - t.Base(), |t.local|;
    var inputs := t.ResimulatedInputs();
    var before, after := t.AllWorlds(), Worlds(t.config, t.local, inputs);
    assert inputs[..first] == t.used[..first];
    WorldsOfPrefix(t.config, t.local, t.used, first);
    WorldsOfPrefix(t.config, t.local, inputs, first);
    assert after[..first + 1] == before[..first + 1];
    assert after[first] == after[..first + 1][first] && before[first] == before[..first + 1][first];
    MixEnds(inputs, t.used, first);
    assert after[..n][..first] == after[..first + 1][..first] && before[..n][..first] == before[..first + 1][..first];
    MixEnds(after[..n], before[..n], first);
    forall i | 0 <= i < first + 1 ensures Hashes(after)[i] == Hashes(before)[i] {
      assert after[..first + 1][i] == after[i] && before[..first + 1][i] == before[i];
    }
    assert Hashes(after)[..first + 1] == Hashes(before)[..first + 1];
    MixEnds(Hashes(after), Hashes(before), first + 1);
  }

  lemma ResimulationStep(t: Timeline, i: nat)
    requires t.Valid() && t.dirty.Some? && t.dirty.value - t.Base() <= i < |t.local|
    ensures var n, input := |t.local|, ActualOrPredicted(t.config, t.known, t.Base() + i);
      var inputs, before, after := t.ResimulatedInputs(), t.AllWorlds(), Worlds(t.config, t.local,
        t.ResimulatedInputs());
      && Sound(after[i]) && HasIds(after[i]) && after[i].frame == Tag(t.Base() + i)
      && input.frame == Tag(t.Base() + i) && input.player == t.Remote()
      && t.local[i].frame == Tag(t.Base() + i) && t.local[i].player == t.config.local
      && |t.local| - CAPACITY <= i && |t.local| < HALF
      && after[i + 1] == NextWorld(t.config, after[i], t.local[i], input)
      && Mixed(inputs, t.used, i)[i := input] == Mixed(inputs, t.used, i + 1)
      && Mixed(after[..n], before[..n], i)[i := after[i]] == Mixed(after[..n], before[..n], i + 1)
      && Mixed(Hashes(after), Hashes(before), i + 1)[i + 1 := HashCanonical(after[i + 1])]
           == Mixed(Hashes(after), Hashes(before), i + 2)
  {
    hide Sound, HashCanonical, NextWorld, Worlds, Mixed, ActualOrPredicted, Tag;
    var n := |t.local|;
    var u := t.Resimulated();
    ResimulatedIsValid(t);
    BoundaryIsSound(u, i);
    WorldsStep(u.config, u.local, u.used, i);
    ActualOrPredictedIsTagged(t, t.Base() + i);
    assert u.used[i] == ActualOrPredicted(t.config, t.known, t.Base() + i);
    var before, after := t.AllWorlds(), u.AllWorlds();
    MixStep(u.used, t.used, i);
    MixStep(after[..n], before[..n], i);
    MixStep(Hashes(after), Hashes(before), i + 1);
  }

  lemma ResimulationEnds(t: Timeline)
    requires t.Valid() && t.dirty.Some?
    ensures var n, u := |t.local|, t.Resimulated();
      var before, after := t.AllWorlds(), Worlds(t.config, t.local, t.ResimulatedInputs());
      && u.Base() == t.Base() && u.local == t.local && u.used == t.ResimulatedInputs() && u.known == t.known
      && u.AllWorlds() == after
      && Mixed(t.ResimulatedInputs(), t.used, n) == t.ResimulatedInputs()
      && Mixed(after[..n], before[..n], n) == after[..n]
      && Mixed(Hashes(after), Hashes(before), n + 1) == Hashes(after)
  {
    hide Sound, HashCanonical, Worlds, Mixed, ActualOrPredicted;
    var n := |t.local|;
    var before, after := t.AllWorlds(), Worlds(t.config, t.local, t.ResimulatedInputs());
    MixEnds(t.ResimulatedInputs(), t.used, n);
    MixEnds(after[..n], before[..n], n);
    MixEnds(Hashes(after), Hashes(before), n + 1);
  }

  lemma ResimulatedMirrors(t: Timeline)
    requires t.Valid() && t.dirty.Some?
    ensures t.Resimulated().config == t.config && t.Resimulated().dirty.None?
      && t.Resimulated().confirmed == t.confirmed
    ensures t.Resimulated().Now() == t.Now()
    ensures t.Resimulated().counters == t.counters.(
        rollbacks := t.counters.rollbacks + 1, resimulated := t.counters.resimulated + (t.Now() - t.dirty.value),
        deepest := if t.Now() - t.dirty.value > t.counters.deepest then t.Now() - t.dirty.value else t.counters.deepest)
    ensures t.Flushed() == t.Resimulated().Confirm()
  {
  }

  /** A pending correction is inside the rollback window and its snapshot is still in the ring. */
  lemma CorrectionIsServiceable(t: Timeline)
    requires t.Valid() && t.dirty.Some?
    ensures t.Retained(t.dirty.value) && forall w :: IsBoundary(t, t.Now(), w) ==> w.frame == Tag(t.Now())
    ensures FrameDistance(Tag(t.dirty.value), Tag(t.Now())) == t.Now() - t.dirty.value <= t.config.maxRollback
  {
    hide Sound, Worlds;
    BoundaryIsSound(t, |t.local|);
    TagsRefineFrames(t.dirty.value, t.Now());
  }

  lemma SnapshotAt(rings: Rings, t: Timeline, frame: int)
    requires Caches(rings, t)
    ensures frame in rings.snapshots <==> t.Retained(frame)
    ensures t.Retained(frame) ==> IsBoundary(t, frame, rings.snapshots[frame])
  {
    hide Worlds, Hashes;
  }

  lemma SameHistories(t: Timeline, u: Timeline, rings: Rings)
    requires Caches(rings, t)
    requires u.config == t.config && u.local == t.local && u.used == t.used && u.known == t.known
    ensures Caches(rings, u)
    ensures forall frame, w :: IsBoundary(t, frame, w) ==> IsBoundary(u, frame, w)
  {
    hide Worlds;
  }
}
