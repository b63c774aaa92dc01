/** `make_packet` and `process_delivery` over live sessions, windows and trackers (src/report/scenario_runner.cpp). */
module Runner {
  import opened Core
  import opened Simulation
  import opened Timelines
  import opened Storages
  import opened Sessions
  import opened SequenceWindows
  import opened Codec
  import opened Desyncs
  import opened Exchange

  function Reversed<T>(s: seq<T>): (r: seq<T>)
    ensures |r| == |s|
  {
    if s == [] then [] else Reversed(s[1..]) + [s[0]]
  }

  lemma {:induction false} ReversedSnoc<T>(s: seq<T>, x: T)
    ensures Reversed(s + [x]) == [x] + Reversed(s)
  {
    if s != [] {
      ReversedSnoc(s[1..], x);
      assert (s + [x])[1..] == s[1..] + [x];
    }
  }

  lemma ReversedNothing<T>()
    ensures Reversed<T>([]) == []
  {
  }

  method Reverse<T>(s: seq<T>) returns (r: seq<T>)
    ensures r == Reversed(s)
  {
    r := [];
    for i := 0 to |s|
      invariant r == Reversed(s[..i])
    {
      assert s[..i + 1] == s[..i] + [s[i]];
      ReversedSnoc(s[..i], s[i]);
      r := [s[i]] + r;
    }
    assert s[..|s|] == s;
  }

  lemma TagBack(frame: int, offset: int)
    ensures (Tag(frame) - offset) % U32 == Tag(frame - offset)
  {
    TagDifference(offset, frame);
  }

  lemma Mirrored(session: RollbackSession)
    requires session.Valid()
    ensures session.confirmedFrame == Tag(session.timeline.confirmed) && session.timeline.config == session.config
    ensures |session.timeline.used| == |session.timeline.local| && session.timeline.Valid()
      && session !in session.storage.repr
  {
    hide Timeline.Valid, Storage.Valid, Caches;
    ValidTimeline(session.timeline);
  }

  lemma ValidTimeline(t: Timeline)
    requires t.Valid()
    ensures |t.used| == |t.local|
  {
  }

  lemma HashesStep(t: Timeline, offset: nat)
    requires |t.used| == |t.local|
    ensures HashesBehind(t, offset) ==
      if offset >= MAX_CONFIRMED_HASHES then []
      else
        var frame := Tag(t.confirmed - offset);
        var hash := t.HashAnswer(frame);
        if hash.Err? then [] else HashesBehind(t, offset + 1) + [ConfirmedHash(frame, hash.value)]
  {
    hide Timeline.HashAnswer;
  }

  method MakePacket(sender: RollbackSession, history: seq<InputFrame>, scenario: u64, sequence: u32) returns (p: Packet)
    requires sender.Valid()
    ensures sender.Valid() && |sender.timeline.used| == |sender.timeline.local|
    ensures p == MadePacket(sender.timeline, history, scenario, sequence)
  {
    hide RollbackSession.Valid, Timeline.HashAnswer, Tag, HashesBehind, Reversed;
    Mirrored(sender);
    ghost var t := sender.timeline;
    var collected: seq<ConfirmedHash> := [];
    var offset := 0;
    HashesStep(t, MAX_CONFIRMED_HASHES);
    ReversedNothing<ConfirmedHash>();
    while offset < MAX_CONFIRMED_HASHES
      invariant 0 <= offset <= MAX_CONFIRMED_HASHES
      invariant HashesBehind(t, 0) == HashesBehind(t, offset) + Reversed(collected)
      modifies {}
    {
      TagBack(t.confirmed, offset);
      HashesStep(t, offset);
      var frame: u32 := (sender.confirmedFrame - offset) % U32;
      var hash := sender.HashAt(frame);
      if hash.Err? {
        break;
      }
      ReversedSnoc(collected, ConfirmedHash(frame, hash.value));
      collected := collected + [ConfirmedHash(frame, hash.value)];
      offset := offset + 1;
    }
    assert HashesBehind(t, offset) == [];
    var hashes := Reverse(collected);
    p := Packet(PROTOCOL_VERSION, INPUT, sender.config.local, sequence, sender.confirmedFrame, scenario,
      sender.confirmedFrame,
                WindowFrom(history), hashes, None);
  }

  lemma DiagnosticStep(t: Timeline, boundary: u32, offset: nat)
    ensures DiagnosticInputsFrom(t, boundary, offset) ==
      if offset > MAX_DIAGNOSTIC_INPUTS then []
      else
        var frame: u32 := (boundary - offset) % U32;
        var a, b := t.InputAnswer(A, frame), t.InputAnswer(B, frame);
        if a.Err? || b.Err? then [] else DiagnosticInputsFrom(t, boundary, offset + 1) + [InputPair(a.value, b.value)]
  {
    hide Timeline.InputAnswer;
  }

  method DiagnosticInputs(session: RollbackSession, boundary: u32) returns (inputs: seq<InputPair>)
    requires session.Valid()
    ensures inputs == DiagnosticInputsFrom(session.timeline, boundary, 1)
  {
    hide RollbackSession.Valid, Timeline.InputAnswer, DiagnosticInputsFrom, Reversed;
    ghost var t := session.timeline;
    var collected: seq<InputPair> := [];
    var offset := 1;
    DiagnosticStep(t, boundary, MAX_DIAGNOSTIC_INPUTS + 1);
    ReversedNothing<InputPair>();
    while offset <= MAX_DIAGNOSTIC_INPUTS
      invariant 1 <= offset <= MAX_DIAGNOSTIC_INPUTS + 1
      invariant DiagnosticInputsFrom(t, boundary, 1) == DiagnosticInputsFrom(t, boundary, offset) + Reversed(collected)
      modifies {}
    {
      var frame: u32 := (boundary - offset) % U32;
      DiagnosticStep(t, boundary, offset);
      var a := session.ConfirmedInput(A, frame);
      var b := session.ConfirmedInput(B, frame);
      if a.Err? || b.Err? {
        break;
      }
      ReversedSnoc(collected, InputPair(a.value, b.value));
      collected := collected + [InputPair(a.value, b.value)];
      offset := offset + 1;
    }
    assert DiagnosticInputsFrom(t, boundary, offset) == [];
    inputs := Reverse(collected);
  }

  method IngestInputs(receiver: RollbackSession, inputs: seq<InputFrame>) returns (r: Result<()>)
    requires receiver.Valid() && receiver.timeline.Valid()
    modifies receiver, receiver.storage.repr
    ensures receiver.Valid()
    ensures var (t, error) := old(IngestedAll(receiver.timeline, inputs));
      receiver.timeline == t && r == if error.Some? then Err(error.value) else Ok(())
  {
    hide RollbackSession.Valid, Timeline.Valid, Timeline.Ingested, Timeline.IngestError;
    for i := 0 to |inputs|
      invariant receiver.Valid() && receiver.timeline.Valid()
      invariant old(IngestedAll(receiver.timeline, inputs)) == IngestedAll(receiver.timeline, inputs[i..])
    {
      ghost var t := receiver.timeline;
      assert inputs[i..][0] == inputs[i] && inputs[i..][1..] == inputs[i + 1..];
      IngestKeepsClock(t, inputs[i]);
      IngestedIsValid(t, inputs[i]);
      var ingested := receiver.IngestRemote(inputs[i]);
      if ingested.Err? {
        RefusedIngest(t, inputs[i]);
        return Err(ingested.error);
      }
    }
    return Ok(());
  }

  lemma RefusedIngest(t: Timeline, input: InputFrame)
    requires t.Valid() && t.IngestError(input).Some?
    ensures t.Ingested(input) == t
  {
  }

  method CompareHash(receiver: RollbackSession, tracker: DesyncTracker, remote: ConfirmedHash)
    requires receiver.Valid() && tracker as object != receiver && tracker !in receiver.storage.repr
    modifies tracker
    ensures receiver.Valid() && |receiver.timeline.used| == |receiver.timeline.local|
    ensures tracker.diagnostic == Compared(receiver.timeline, old(tracker.diagnostic), remote, tracker.scenarioSeed)
  {
    hide RollbackSession.Valid, Timeline.HashAnswer, Timeline.StateAnswer, Tracked;
    Mirrored(receiver);
    var local := receiver.HashAt(remote.frame);
    if local.Ok? {
      if local.value == remote.hash {
        return;
      }
      var state := receiver.StateAt(remote.frame);
      if state.Err? {
        return;
      }
      var inputs := DiagnosticInputs(receiver, remote.frame);
      var _ := tracker.Observe(HashObservation(remote.frame, local.value, true), HashObservation(remote.frame,
        remote.hash, true),
                               inputs, state.value);
    }
  }

  method CompareHashes(receiver: RollbackSession, tracker: DesyncTracker, hashes: seq<ConfirmedHash>)
    requires receiver.Valid() && tracker as object != receiver && tracker !in receiver.storage.repr
    modifies tracker
    ensures receiver.Valid() && |receiver.timeline.used| == |receiver.timeline.local|
    ensures tracker.diagnostic == ComparedAll(receiver.timeline, old(tracker.diagnostic), hashes, tracker.scenarioSeed)
  {
    hide RollbackSession.Valid, Compared;
    Mirrored(receiver);
    ghost var t := receiver.timeline;
    for i := 0 to |hashes|
      invariant receiver.Valid()
      invariant ComparedAll(t, old(tracker.diagnostic), hashes, tracker.scenarioSeed)
             == ComparedAll(t, tracker.diagnostic, hashes[i..], tracker.scenarioSeed)
      modifies tracker
    {
      assert hashes[i..][0] == hashes[i] && hashes[i..][1..] == hashes[i + 1..];
      CompareHash(receiver, tracker, hashes[i]);
    }
  }

  method ProcessPacket(packet: Packet, receiver: RollbackSession, window: SequenceWindow, tracker: DesyncTracker,
                       ghost number: int)
    returns (r: Result<()>)
    requires receiver.Valid() && window.Valid() && receiver.timeline.Valid()
    requires tracker as object != receiver && tracker !in receiver.storage.repr
    requires window as object != receiver && window !in receiver.storage.repr && window as object != tracker
    requires packet.sequence == Tag(number)
    requires window.window.newest.Some? ==> -HALF <= number - window.window.newest.value < HALF
    modifies receiver, receiver.storage.repr, window, tracker
    ensures receiver.Valid() && window.Valid()
    ensures var (after, error) := old(Processed(Endpoint(receiver.timeline, window.window, tracker.diagnostic), packet,
      number, tracker.scenarioSeed));
      && after == Endpoint(receiver.timeline, window.window, tracker.diagnostic)
      && r == if error.Some? then Err(error.value) else Ok(())
  {
    hide RollbackSession.Valid, SequenceWindow.Valid, Timeline.Valid, IngestedAll, ComparedAll, Judged, Observed, Tag,
         Timeline.Flushed;
    ghost var t := receiver.timeline;
    var disposition := window.Observe(packet.sequence, number);
    if disposition.Duplicate? || disposition.Stale? {
      return Ok(());
    }
    IngestedAllIsValid(t, packet.inputs);
    var ingested := IngestInputs(receiver, packet.inputs);
    if ingested.Err? {
      return Err(ingested.error);
    }
    var correction := receiver.FlushCorrections();
    if correction.Err? {
      assert false;
    }
    CompareHashes(receiver, tracker, packet.hashes);
    return Ok(());
  }

  /** A delivery that does not decode changes nothing; one that decodes is processed as the packet it carries. */
  method ProcessDelivery(bytes: seq<u8>, receiver: RollbackSession, window: SequenceWindow, tracker: DesyncTracker,
                         ghost number: int)
    returns (r: Result<()>)
    requires receiver.Valid() && window.Valid() && receiver.timeline.Valid()
    requires tracker as object != receiver && tracker !in receiver.storage.repr
    requires window as object != receiver && window !in receiver.storage.repr && window as object != tracker
    requires Decoded(bytes).Ok? ==>
        Decoded(bytes).value.sequence == Tag(number)
    requires window.window.newest.Some? ==> -HALF <= number - window.window.newest.value < HALF
    modifies receiver, receiver.storage.repr, window, tracker
    ensures receiver.Valid() && window.Valid()
    ensures Decoded(bytes).Err? ==>
        r == Err(Decoded(bytes).error) && receiver.timeline == old(receiver.timeline)
          && window.window == old(window.window)
        && tracker.diagnostic == old(tracker.diagnostic)
    ensures Decoded(bytes).Ok? ==>
        var (after, error) := old(Processed(Endpoint(receiver.timeline, window.window, tracker.diagnostic),
                                            Decoded(bytes).value, number, tracker.scenarioSeed));
        && after == Endpoint(receiver.timeline, window.window, tracker.diagnostic)
        && r == if error.Some? then Err(error.value) else Ok(())
  {
    hide RollbackSession.Valid, SequenceWindow.Valid, Timeline.Valid, Processed, Decoded, Tag;
    var decoded := DecodePacket(bytes);
    if decoded.Err? {
      return Err(decoded.error);
    }
    r := ProcessPacket(decoded.value, receiver, window, tracker, number);
  }
}
