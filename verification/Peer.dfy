/** The peer that runs a session over datagrams: `PeerDriver` of src/udp/peer.cpp, with the socket arbitrary. */
module Peers {
  import opened Core
  import opened FrameRings
  import opened Simulation
  import opened SimulationLaws
  import opened Canonical
  import opened Timelines
  import opened Storages
  import opened Sessions
  import opened SequenceWindows
  import opened Codec
  import opened Desyncs
  import opened Exchange
  import opened Protocol
  import opened Runner
  import opened PeerReplays
  import opened Receptions
  import Replays

  const FINAL_DRAIN_STEPS: int := 16

  datatype Phase = Handshake | Running | Confirming | Finished | Failed

  function FrameLimit(c: PeerConfig): int { if c.engine then 240 else 256 }

  datatype PeerStep = PeerStep(logicalTick: nat, phase: Phase, handshakeComplete: bool)

  datatype Artifacts = Artifacts(replay: seq<u8>, finalHash: u64, remoteHash: u64)

  /** The only ways a phase changes; finished and failed are final. */
  predicate CanBecome(before: Phase, after: Phase) {
    || before == after
    || (before.Handshake? && (after.Running? || after.Failed?))
    || (before.Running? && (after.Confirming? || after.Failed?))
    || (before.Confirming? && (after.Finished? || after.Failed?))
  }

  /**
   * The replay holds exactly the confirmed inputs of `t`, verifies, and ends with the hash of their canonical
   * simulation. That is the session's own final hash in the engine profile, and for every standard session in either.
   */
  ghost predicate IsReplayOf(replay: Replays.Replay, a: Artifacts, c: PeerConfig, t: Timeline) {
    && Replays.Encoded(replay) == Ok(a.replay)
    && replay.scenarioSeed == c.scenarioSeed && replay.transportSeed == c.transportSeed
    && replay.finalFrame == c.frameCount && replay.variant == 0
    && Archives(Ok(replay), t, replay.expectedHash)
    && |Rerun(t).used| == |Rerun(t).local| && replay.expectedHash == HashCanonical(Rerun(t).State())
    && (c.engine || Standard(t.config) ==> replay.expectedHash == a.finalHash)
  }

  // ---- The socket: arbitrary datagrams, failures and silence ----

  function Polled(r: Result<Option<Datagram>>): Poll {
    match r
    case Err(_) => Failure
    case Ok(None) => Silence
    case Ok(Some(datagram)) => Arrival(datagram)
  }

  /** `polls` is what it has handed over, `sent` what it was asked to send. */
  class Socket {
    ghost var polls: seq<Poll>
    ghost var sent: seq<Outgoing>

    constructor ()
      ensures polls == [] && sent == []
    {
      polls, sent := [], [];
    }

    method ReceiveFor() returns (r: Result<Option<Datagram>>)
      modifies this`polls
      ensures polls == old(polls) + [Polled(r)]
      ensures r.Err? ==> r == Err(IoError)
    {
      var failed: bool := *;
      if failed {
        r := Err(IoError);
      } else {
        var datagram: Option<Datagram> := *;
        r := Ok(datagram);
      }
      polls := polls + [Polled(r)];
    }

    method SendTo(port: u16, bytes: seq<u8>) returns (r: Result<()>)
      modifies this`sent
      ensures |bytes| > 65507 ==> r == Err(InvalidLength) && sent == old(sent)
      ensures |bytes| <= 65507 ==> sent == old(sent) + [Outgoing(port, bytes)] && (r.Err? ==> r == Err(IoError))
    {
      if |bytes| > 65507 {
        return Err(InvalidLength);
      }
      var failed: bool := *;
      sent := sent + [Outgoing(port, bytes)];
      r := if failed then Err(IoError) else Ok(());
    }
  }

  class PeerDriver {
    const config: PeerConfig
    const script: Script
    const hello: seq<u8>
    const socket: Socket
    const session: RollbackSession
    const window: SequenceWindow
    const tracker: DesyncTracker
    /** The session held no input past the ring when this driver took it. */
    ghost const clean: bool
    var localHistory: seq<InputFrame>
    var remoteFinalHash: Option<u64>
    var diagnostic: Option<Diagnostic>
    var nextSequence: u32
    var phase: Phase
    var handshakeComplete: bool
    var logicalTick: nat
    var failure: Option<ErrorCode>
    var lastElapsed: u64
    var runStarted: u64
    var drainProgress: nat
    var artifacts: Option<Artifacts>

    ghost predicate Owned() {
      var s: object, w: object, t: object, k: object := session, window, tracker, socket;
      && this as object !in session.storage.repr && w !in session.storage.repr && t !in session.storage.repr
      && s !in session.storage.repr && k !in session.storage.repr
      && s != this && w != this && t != this && s != w && s != t && w != t
      && k != this && k != s && k != w && k != t
    }

    ghost predicate Configured() {
      && Owned()
      && 0 < config.frameCount <= FrameLimit(config) && session.config.local == config.id
      && tracker.scenarioSeed == config.scenarioSeed
      && session.config.initial.frame == 0 && session.config.initial.nextId + 2 * (CAPACITY + 1) < U32
      && (forall frame, p :: script(frame, p) < 32)
    }

    /** What receiving has left in this driver, and what it has played and numbered so far. */
    ghost function Received(): Intake
      reads this`remoteFinalHash, session`timeline, window`window, tracker`diagnostic
    {
      Intake(session.timeline, window.window, remoteFinalHash, tracker.diagnostic)
    }

    ghost function State(): Driving
      reads this`remoteFinalHash, this`localHistory, this`nextSequence, session`timeline, window`window,
        tracker`diagnostic
    {
      Driving(Received(), localHistory, nextSequence)
    }

    /** These are the scripted inputs of the first frames. */
    ghost predicate Played(history: seq<InputFrame>) {
      |history| <= CAPACITY
      && forall i :: 0 <= i < |history| ==> history[i] == InputFrame(i, config.id, i, script(i, config.id))
    }

    /** The session this driver borrows, with the inputs it has generated so far. */
    ghost predicate Linked()
      reads this`localHistory, this`diagnostic, session, session.storage.repr, window, tracker
    {
      && Configured() && session.Valid() && window.Valid()
      && Kept(config, clean, session.timeline) && diagnostic == tracker.diagnostic
      && session.timeline.Now() == |localHistory| <= config.frameCount
      && Played(localHistory)
    }

    ghost predicate Valid()
      reads this, session, session.storage.repr, window, tracker
    {
      Linked() && (failure.Some? <==> phase.Failed?) && (!phase.Failed? ==> Going()) && runStarted <= lastElapsed
    }

    /** What each phase says of the frames played. */
    ghost predicate Going()
      reads this`phase, this`localHistory, this`handshakeComplete, this`artifacts, this`remoteFinalHash, session
    {
      && (phase.Handshake? ==> localHistory == [] && !handshakeComplete)
      && (phase.Running? ==> |localHistory| < config.frameCount)
      && (phase.Confirming? || phase.Finished? ==> |localHistory| == config.frameCount)
      && (phase.Finished? ==> Concluded())
    }

    /** Confirmed at the target, with the same final hash as the remote, and a replay that verifies to it. */
    ghost predicate Concluded()
      reads this`artifacts, this`remoteFinalHash, session
    {
      && session.timeline.confirmed == session.timeline.Now() == config.frameCount
      && |session.timeline.used| == |session.timeline.local|
      && artifacts.Some? && remoteFinalHash == Some(artifacts.value.remoteHash)
      && artifacts.value.finalHash == artifacts.value.remoteHash == HashCanonical(session.timeline.State())
      && exists replay :: IsReplayOf(replay, artifacts.value, config, session.timeline)
    }

    constructor (c: PeerConfig, inputs: Script, greeting: seq<u8>, s: RollbackSession)
      requires s.Valid() && s.timeline.Now() == 0
      requires 0 < c.frameCount <= FrameLimit(c) && s.config.local == c.id
      requires s.config.initial.frame == 0 && s.config.initial.nextId + 2 * (CAPACITY + 1) < U32
      requires forall frame, p :: inputs(frame, p) < 32
      ensures Valid() && config == c && session == s && phase == Handshake && logicalTick == 0 && failure == None
      ensures script == inputs && hello == greeting
      ensures clean == Unevicted(s.timeline)
      ensures State() == Driving(Intake(s.timeline, EMPTY, None, None), [], 2) && fresh(socket)
      ensures socket.polls == [] && socket.sent == []
    {
      hide RollbackSession.Valid, SequenceWindow.Valid, Unevicted;
      Mirrored(s);
      RingsAnswer(s);
      UnstartedUsesInputs(s);
      clean := Unevicted(s.timeline);
      config, script, hello, session := c, inputs, greeting, s;
      socket := new Socket();
      window := new SequenceWindow();
      tracker := new DesyncTracker(c.scenarioSeed);
      localHistory, remoteFinalHash, diagnostic, nextSequence := [], None, None, 2;
      phase, handshakeComplete, logicalTick, failure := Handshake, false, 0, None;
      lastElapsed, runStarted, drainProgress, artifacts := 0, 0, 0, None;
    }

    // ---- Receiving ----

    /** The remembered hash is the session's own answer for the target. */
    ghost predicate RemembersFinalHash()
      reads this, session
    {
      && remoteFinalHash.Some? && |session.timeline.used| == |session.timeline.local|
      && session.timeline.HashAnswer(config.frameCount) == Ok(remoteFinalHash.value)
    }

    /** Ingest the inputs of one packet, correct the session, and compare hashes. */
    method Absorb(packet: Packet) returns (r: Result<()>)
      requires Linked()
      modifies this`remoteFinalHash, this`diagnostic, session, session.storage.repr, tracker
      ensures Linked()
      ensures config.engine && PastTarget(packet.inputs, config.frameCount) ==>
          r == Err(FrameMismatch) && session.timeline == old(session.timeline)
      ensures old(session.timeline).Valid()
        && (Received(), if r.Err? then Some(r.error) else None) == Unpacked(config, old(Received()), packet)
      ensures r.Ok? ==> forall i :: 0 <= i < |packet.hashes| ==> AgreesWith(session.timeline, packet.hashes[i])
      ensures remoteFinalHash == old(remoteFinalHash) || RemembersFinalHash()
    {
      hide RollbackSession.Valid, SequenceWindow.Valid, Kept, Timeline.Valid, IngestedAll, Timeline.Flushed,
           Contradicted, AgreesWith, Timeline.HashAnswer, Checked;
      Mirrored(session);
      RingsAnswer(session);
      if config.engine {
        for i := 0 to |packet.inputs|
          invariant forall k :: 0 <= k < i ==> packet.inputs[k].frame < config.frameCount
          modifies {}
        {
          if packet.inputs[i].frame >= config.frameCount {
            return Err(FrameMismatch);
          }
        }
      }
      ghost var t := session.timeline;
      IngestedAllIsValid(t, packet.inputs);
      AbsorbedIsKept(config, clean, t, packet.inputs);
      r := IngestInputs(session, packet.inputs);
      if r.Err? {
        return;
      }
      var corrected := session.FlushCorrections();
      if corrected.Err? {
        assert false;
      }
      r := CompareRemote(packet.hashes);
    }

    /** A confirmed hash that differs is a desync; one for the final frame is remembered. */
    method CompareRemote(hashes: seq<ConfirmedHash>) returns (r: Result<()>)
      requires Linked()
      modifies this`remoteFinalHash, this`diagnostic, tracker
      ensures Linked() && |session.timeline.used| == |session.timeline.local|
      ensures (Received(), if r.Err? then Some(r.error) else None) == Checked(config, old(Received()), hashes)
      ensures r.Ok? ==> forall i :: 0 <= i < |hashes| ==> AgreesWith(session.timeline, hashes[i])
      ensures r.Err? ==> r == Err(Desync) && Contradicted(session.timeline, hashes)
      ensures remoteFinalHash == old(remoteFinalHash) || RemembersFinalHash()
    {
      hide RollbackSession.Valid, SequenceWindow.Valid, Kept, Timeline.HashAnswer, Timeline.StateAnswer, Tracked;
      Mirrored(session);
      for i := 0 to |hashes|
        invariant Linked()
        invariant Checked(config, old(Received()), hashes) == Checked(config, Received(), hashes[i..])
        invariant forall k :: 0 <= k < i ==> AgreesWith(session.timeline, hashes[k])
        invariant remoteFinalHash == old(remoteFinalHash) || RemembersFinalHash()
        modifies this`remoteFinalHash, this`diagnostic, tracker
      {
        assert hashes[i..][0] == hashes[i] && hashes[i..][1..] == hashes[i + 1..];
        var remote := hashes[i];
        var local := session.HashAt(remote.frame);
        if local.Ok? {
          if local.value != remote.hash {
            var state := session.StateAt(remote.frame);
            AnsweredBoth(session.timeline, remote.frame);
            assert !AgreesWith(session.timeline, hashes[i]);
            if state.Err? {
              assert false;
            }
            var inputs := DiagnosticInputs(session, remote.frame);
            diagnostic := tracker.Observe(HashObservation(remote.frame, local.value, true),
                                          HashObservation(remote.frame, remote.hash, true), inputs, state.value);
            return Err(Desync);
          }
          if remote.frame == config.frameCount {
            remoteFinalHash := Some(remote.hash);
          }
        }
      }
      r := Ok(());
    }

    /** What one poll does to what has been received, and whether there was a datagram. */
    ghost predicate ReceivesPoll(before: Intake, poll: Poll, r: Result<bool>)
      requires before.session.Valid()
      reads this`remoteFinalHash, session`timeline, window`window, tracker`diagnostic
    {
      match poll
      case Silence => Received() == before && r == Ok(false)
      case Failure => Received() == before && r == Err(IoError)
      case Arrival(d) =>
        var (after, error) := Taken(config, before, d);
        Received() == after && r == if error.Some? then Err(error.value) else Ok(true)
    }

    /** Ask the socket once. */
    method ReceiveOne() returns (r: Result<bool>)
      requires Linked()
      modifies this`remoteFinalHash, this`diagnostic, session, session.storage.repr, window, tracker, socket
      ensures Linked()
      ensures |socket.polls| == |old(socket.polls)| + 1 && old(socket.polls) <= socket.polls
        && socket.sent == old(socket.sent)
      ensures old(session.timeline).Valid() && ReceivesPoll(old(Received()), socket.polls[|socket.polls| - 1], r)
    {
      hide RollbackSession.Valid, SequenceWindow.Valid, Kept, Decoded, Unpacked, Judged, Observed, HelloError,
           Timeline.Valid;
      Mirrored(session);
      var received := socket.ReceiveFor();
      if received.Err? {
        return Err(received.error);
      }
      if received.value.None? {
        return Ok(false);
      }
      if config.engine && received.value.value.port != config.relayPort {
        return Err(InvalidArgument);
      }
      var decoded := DecodePacket(received.value.value.bytes);
      if decoded.Err? {
        return Err(decoded.error);
      }
      var packet := decoded.value;
      if packet.sender != Other(config.id) || packet.scenario != config.scenarioSeed {
        return Err(InvalidArgument);
      }
      if packet.kind == HELLO {
        var error := HelloError(config, packet);
        return if error.Some? then Err(error.value) else Ok(true);
      }
      if packet.kind != INPUT {
        return Err(UnknownPacketType);
      }
      NumberIsNear(window.window, packet.sequence);
      var disposition := window.Observe(packet.sequence, NumberOf(window.window, packet.sequence));
      if disposition.Duplicate? || disposition.Stale? {
        return Ok(true);
      }
      var absorbed := Absorb(packet);
      r := if absorbed.Err? then Err(absorbed.error) else Ok(true);
    }

    /** At most 64 datagrams that are ready now. */
    method DrainAvailable() returns (r: Result<()>, ghost polls: seq<Poll>)
      requires Linked()
      modifies this`remoteFinalHash, this`diagnostic, session, session.storage.repr, window, tracker, socket
      ensures Linked()
      ensures socket.polls == old(socket.polls) + polls && socket.sent == old(socket.sent)
      ensures polls != [] && old(session.timeline).Valid() && DrainsFully(config, old(Received()), polls)
      ensures (Received(), if r.Err? then Some(r.error) else None) == Drained(config, old(Received()), polls)
    {
      hide RollbackSession.Valid, SequenceWindow.Valid, Kept, Timeline.Valid, Taken, Drained, DrainsFully;
      Mirrored(session);
      ghost var before := Received();
      polls := [];
      NothingDrained(config, before);
      for count := 0 to DRAIN_LIMIT
        invariant Linked() && session.timeline.Valid() && |polls| == count
        invariant socket.polls == old(socket.polls) + polls && socket.sent == old(socket.sent)
        invariant count == DRAIN_LIMIT ==> DrainsFully(config, before, polls)
        invariant Draining(config, before, polls) && Drained(config, before, polls) == (Received(), None)
        modifies this`remoteFinalHash, this`diagnostic, session, session.storage.repr, window, tracker, socket
      {
        ghost var sofar := polls;
        var received := ReceiveOne();
        Mirrored(session);
        ghost var poll := socket.polls[|socket.polls| - 1];
        polls := polls + [poll];
        DrainOneMore(config, before, sofar, poll);
        OnePoll(config, Drained(config, before, sofar).0, poll);
        if received.Err? {
          return Err(received.error), polls;
        }
        if !received.value {
          break;
        }
      }
      r := Ok(());
    }

    // ---- Sending ----

    /** A packet of this driver always encodes; only the socket can fail. */
    method SendInputs() returns (r: Result<()>)
      requires Linked() && localHistory != []
      modifies this`nextSequence, socket
      ensures Linked() && socket.polls == old(socket.polls) && (r.Err? ==> r == Err(IoError))
      ensures old(socket.sent) <= socket.sent && nextSequence == NextFrame(old(nextSequence))
        && SendsPacket(config, session.timeline, localHistory, old(nextSequence), socket.sent[|old(socket.sent)|..])
    {
      hide RollbackSession.Valid, SequenceWindow.Valid, Kept, MadePacket, Encoded, EncodeError, Decoded;
      Mirrored(session);
      var packet := MakePacket(session, localHistory, config.scenarioSeed, nextSequence);
      MadePacketEncodes(session.timeline, localHistory, config.scenarioSeed, nextSequence);
      nextSequence := NextFrame(nextSequence);
      EncodingIsSmall(packet);
      var encoded := EncodePacket(packet);
      if encoded.Err? {
        assert false;
      }
      r := socket.SendTo(config.relayPort, encoded.value);
      assert socket.sent[|old(socket.sent)|..] == [Outgoing(config.relayPort, encoded.value)];
    }

    // ---- Artifacts ----

    /** The canonical simulation of the confirmed inputs ends with the session's own hash. */
    ghost predicate Reruns()
      reads session
    {
      && Holding(session.timeline) && session.timeline.confirmed == session.timeline.Now()
      && |session.timeline.used| == |session.timeline.local|
      && |Rerun(session.timeline).used| == |Rerun(session.timeline).local|
      && HashCanonical(Rerun(session.timeline).State()) == HashCanonical(session.timeline.State())
    }

    ghost predicate Concludable()
      reads this`remoteFinalHash, session
    {
      && session.timeline.confirmed == session.timeline.Now() && Holding(session.timeline)
      && |session.timeline.used| == |session.timeline.local|
      && remoteFinalHash == Some(HashCanonical(session.timeline.State()))
      && (config.engine ==> Reruns())
    }

    /**
     * The replay and the final hashes: they exist exactly when the session is confirmed at its target, the ring still
     * holds every remote input, the remote's final hash is the session's own and, in the engine profile, so is the
     * hash of the canonical simulation of the confirmed inputs.
     */
    method BuildArtifacts() returns (r: Result<Artifacts>)
      requires Linked() && remoteFinalHash.Some? && |localHistory| == config.frameCount
      ensures r.Ok? ==>
          && |session.timeline.used| == |session.timeline.local| && session.timeline.confirmed == session.timeline.Now()
          && remoteFinalHash == Some(r.value.remoteHash)
          && r.value.finalHash == r.value.remoteHash == HashCanonical(session.timeline.State())
          && exists replay :: IsReplayOf(replay, r.value, config, session.timeline)
      ensures r.Ok? <==> Concludable()
      ensures Standard(session.config) && session.timeline.confirmed == session.timeline.Now() ==>
          |session.timeline.used| == |session.timeline.local|
          && (r.Ok? <==> Holding(session.timeline) && remoteFinalHash == Some(HashCanonical(session.timeline.State())))
      ensures config.engine && clean ==> Holding(session.timeline)
    {
      hide RollbackSession.Valid, SequenceWindow.Valid, Kept, UsesInputs, Unevicted, BuiltReplay, Replays.Holds,
           Replays.Body, Replays.EncodeError, HashCanonical, Timeline.State, Tag, Rerun, Archives, Standard;
      Mirrored(session);
      RingsAnswer(session);
      SessionIsShort(session);
      KeptUsesInputs(config, clean, session.timeline);
      ReplayExistsExactly(session.timeline, config.scenarioSeed, config.transportSeed);
      ghost var t := session.timeline;
      if config.engine && clean {
        UnevictedHolds(t);
      }
      if Standard(session.config) && t.confirmed == t.Now() && Holding(t) {
        RerunIsTheSession(t);
      }
      var replay := BuildReplay(session, config.frameCount, config.scenarioSeed, config.transportSeed);
      BuiltReplayIsLabelled(t, config.frameCount, config.scenarioSeed, config.transportSeed);
      if replay.Err? {
        return Err(replay.error);
      }
      ArchivesVerifies(replay, t, HashCanonical(Rerun(t).State()));
      var verified := Replays.VerifyReplay(replay.value);
      var encoded := Replays.EncodeReplay(replay.value);
      if verified.Err? {
        assert false;
      }
      if encoded.Err? {
        assert false;
      }
      var report := session.Report();
      if config.engine && report.finalHash != replay.value.expectedHash {
        return Err(ReplayMismatch);
      }
      ConfirmedAtTarget(session, config.frameCount);
      if report.finalHash != remoteFinalHash.value || report.confirmedFrame != config.frameCount {
        return Err(ReplayMismatch);
      }
      assert IsReplayOf(replay.value, Artifacts(encoded.value, report.finalHash, remoteFinalHash.value), config, t);
      r := Ok(Artifacts(encoded.value, report.finalHash, remoteFinalHash.value));
    }

    // ---- step ----

    method Fail(error: ErrorCode) returns (r: Result<PeerStep>)
      requires Linked()
      modifies this`failure, this`phase
      ensures Linked() && failure == Some(error) && phase == Failed && r == Err(error)
    {
      hide RollbackSession.Valid, SequenceWindow.Valid, Kept, UsesInputs, Unevicted;
      failure := Some(error);
      phase := Failed;
      r := Err(error);
    }

    function Observation(): PeerStep
      reads this
    {
      PeerStep(logicalTick, phase, handshakeComplete)
    }

    /** The log of the socket has grown by these. */
    twostate predicate Logged(polls: seq<Poll>, sent: seq<Outgoing>)
      reads socket
    {
      socket.polls == old(socket.polls) + polls && socket.sent == old(socket.sent) + sent
    }

    /** Greet the remote until it greets back. */
    method ShakeHands(elapsed: u64) returns (r: Result<()>, ghost polls: seq<Poll>, ghost sent: seq<Outgoing>)
      requires Linked() && phase.Handshake? && !handshakeComplete
      modifies this`phase, this`handshakeComplete, this`runStarted, socket
      ensures Linked() && (phase.Handshake? || phase.Running?) && (phase.Running? <==> handshakeComplete)
      ensures r.Err? ==> phase.Handshake?
      ensures runStarted == if phase.Running? then elapsed else old(runStarted)
      ensures Logged(polls, sent)
      ensures elapsed >= config.handshakeTimeout ==> r == Err(Timeout) && polls == [] && sent == []
      ensures elapsed < config.handshakeTimeout && |hello| <= 65507 ==>
          Shakes(config, hello, polls, sent, phase.Running?, if r.Err? then Some(r.error) else None)
    {
      hide RollbackSession.Valid, SequenceWindow.Valid, Kept, Decoded, Greets, HelloError;
      ghost var greeting := Outgoing(config.relayPort, hello);
      polls, sent := [], [];
      if elapsed >= config.handshakeTimeout {
        return Err(Timeout), [], [];
      }
      var first := socket.SendTo(config.relayPort, hello);
      sent := if |hello| <= 65507 then [greeting] else [];
      if first.Err? {
        return Err(first.error), [], sent;
      }
      var received := socket.ReceiveFor();
      polls := socket.polls[|old(socket.polls)|..];
      if received.Err? {
        return Err(received.error), polls, sent;
      }
      if received.value.Some? {
        GreetingsAreChecked(config, received.value.value);
        if config.engine && received.value.value.port != config.relayPort {
          return Err(InvalidArgument), polls, sent;
        }
        var packet := DecodePacket(received.value.value.bytes);
        if packet.Err? {
          return Err(packet.error), polls, sent;
        }
        var error := HelloError(config, packet.value);
        if error.Some? {
          return Err(error.value), polls, sent;
        }
        var acknowledged := socket.SendTo(config.relayPort, hello);
        sent := [greeting, greeting];
        if acknowledged.Err? {
          return Err(acknowledged.error), polls, sent;
        }
        phase := Running;
        handshakeComplete := true;
        runStarted := elapsed;
      }
      r := Ok(());
    }

    /** Drain, then generate, simulate and send one frame; the advance itself cannot fail. */
    method PlayFrame() returns (r: Result<()>, ghost polls: seq<Poll>, ghost sent: seq<Outgoing>)
      requires Linked() && phase.Running? && |localHistory| < config.frameCount
      modifies this`remoteFinalHash, this`diagnostic, this`localHistory, this`nextSequence, this`phase,
               session, session.storage.repr, window, tracker, socket
      ensures Linked() && (phase.Running? || phase.Confirming?)
      ensures r.Ok? ==>
          |localHistory| == |old(localHistory)| + 1 && (phase.Confirming? <==> |localHistory| == config.frameCount)
      ensures r.Err? ==> phase.Running?
      ensures Logged(polls, sent)
        && PlaysFrame(config, script, old(State()), polls, sent, State(), if r.Err? then Some(r.error) else None)
    {
      hide RollbackSession.Valid, SequenceWindow.Valid, Kept, Timeline.Valid, Timeline.Advanced, HashCanonical,
           Timeline.State, Drained, DrainsFully, SendsPacket;
      sent := [];
      r, polls := DrainAvailable();
      if r.Err? {
        return;
      }
      CurrentTag(session);
      var local := InputFrame(session.state.frame, config.id, session.state.frame, script(session.state.frame,
        config.id));
      localHistory := localHistory + [local];
      AdvanceAppends(session.timeline, local);
      AdvanceIsKept(config, clean, session.timeline, local);
      var advanced := session.Advance(local);
      if advanced.Err? {
        assert false;
      }
      r := SendInputs();
      sent := socket.sent[|old(socket.sent)|..];
      if r.Err? {
        return;
      }
      CurrentTag(session);
      if session.state.frame == config.frameCount {
        phase := Confirming;
      }
    }

    /** Confirmed at the target, with a remote hash for it. */
    ghost predicate Agreed()
      reads this`remoteFinalHash, session
    {
      session.timeline.confirmed == config.frameCount && remoteFinalHash.Some?
    }

    /** Resend, drain, and count the steps on which both sides agree on the final hash; the 16th finishes. */
    method Confirm() returns (r: Result<()>, ghost polls: seq<Poll>, ghost sent: seq<Outgoing>,
        ghost heard: Option<ErrorCode>)
      requires Linked() && phase.Confirming? && |localHistory| == config.frameCount
      modifies this`remoteFinalHash, this`diagnostic, this`nextSequence, this`drainProgress, this`artifacts, this`phase,
               session, session.storage.repr, window, tracker, socket
      ensures Linked() && (phase.Confirming? || phase.Finished?)
      ensures phase.Finished? ==> Concluded() && r.Ok? && old(drainProgress) + 1 >= 16
      ensures r.Ok? && Agreed() && old(drainProgress) + 1 >= 16 ==> phase.Finished?
      ensures r.Err? ==> phase.Confirming?
      ensures r.Ok? ==> drainProgress == if Agreed() then old(drainProgress) + 1 else 0
      ensures Logged(polls, sent) && Resends(config, old(State()), polls, sent, State(), heard)
      ensures heard.Some? ==> r == Err(heard.value)
      ensures r.Err? && heard.None? ==> Agreed() && old(drainProgress) + 1 >= 16 && !Concludable()
    {
      hide RollbackSession.Valid, SequenceWindow.Valid, Kept, HashCanonical, Timeline.State, Tag, IsReplayOf, Played,
           Timeline.Valid, Drained, DrainsFully, SendsPacket, Holding, Rerun;
      polls, heard := [], None;
      Mirrored(session);
      r := SendInputs();
      sent := socket.sent[|old(socket.sent)|..];
      if r.Err? {
        heard := Some(r.error);
        return;
      }
      r, polls := DrainAvailable();
      heard := if r.Err? then Some(r.error) else None;
      if r.Err? {
        return;
      }
      RingsAnswer(session);
      Mirrored(session);
      ConfirmedAtTarget(session, config.frameCount);
      if session.confirmedFrame == config.frameCount && remoteFinalHash.Some? {
        drainProgress := drainProgress + 1;
        if drainProgress >= FINAL_DRAIN_STEPS {
          var built := BuildArtifacts();
          if built.Err? {
            return Err(built.error), polls, sent, heard;
          }
          artifacts := Some(built.value);
          phase := Finished;
        }
      } else {
        drainProgress := 0;
      }
      r := Ok(());
    }

    /** The step asks the socket nothing, sends nothing and leaves everything received and played as it was. */
    twostate predicate Idles(polls: seq<Poll>, sent: seq<Outgoing>)
      reads this`remoteFinalHash, this`localHistory, this`nextSequence, session, window, tracker
    {
      polls == [] && sent == [] && State() == old(State())
    }

    /** What a step that gets past the clock and the timeouts does, by phase. */
    twostate predicate Proceeds(polls: seq<Poll>, sent: seq<Outgoing>, error: Option<ErrorCode>)
      reads this`remoteFinalHash, this`localHistory, this`nextSequence, this`phase, session, window, tracker
    {
      match old(phase)
      case Handshake =>
        State() == old(State()) && (|hello| <= 65507 ==> Shakes(config, hello, polls, sent, phase.Running?, error))
      case Running => PlaysFrame(config, script, old(State()), polls, sent, State(), error)
      case Confirming =>
        exists heard ::
          && Resends(config, old(State()), polls, sent, State(), heard)
          && (heard.Some? ==> error == heard)
          && (heard.None? && error.Some? ==> Agreed() && old(drainProgress) + 1 >= 16 && !Concludable())
      case _ => true
    }

    lemma Apart()
      requires Linked()
      ensures this as object !in session.storage.repr && session as object != this && window as object != this
        && tracker as object != this
    {
      hide RollbackSession.Valid, SequenceWindow.Valid, Kept, Played;
    }

    /** The phases of a step, once the clock is accepted. */
    method Proceed(elapsed: u64) returns (done: Result<()>, ghost polls: seq<Poll>, ghost sent: seq<Outgoing>)
      requires Valid() && !phase.Failed? && !phase.Finished? && elapsed == lastElapsed
      modifies this`remoteFinalHash, this`diagnostic, this`localHistory, this`nextSequence, this`phase,
               this`handshakeComplete, this`runStarted, this`drainProgress, this`artifacts,
               session, session.storage.repr, window, tracker, socket
      ensures Linked() && failure.None? && runStarted <= lastElapsed && !phase.Failed? && (done.Ok? ==> Going())
      ensures CanBecome(old(phase), phase) && Logged(polls, sent) && (done.Err? ==> phase == old(phase))
      ensures phase.Finished? ==> old(phase).Confirming? && old(drainProgress) + 1 >= 16
      ensures runStarted == if old(phase).Handshake? && phase.Running? then elapsed else old(runStarted)
      ensures
        if elapsed >= (if old(phase).Handshake? then config.handshakeTimeout else old(runStarted) + config.runTimeout)
        then done == Err(Timeout) && Idles(polls, sent)
        else Proceeds(polls, sent, if done.Err? then Some(done.error) else None)
    {
      hide RollbackSession.Valid, SequenceWindow.Valid, Kept, IsReplayOf, Played, Timeline.State, HashCanonical,
           PlaysFrame, Resends, Shakes, PeerDriver.Concludable, PeerDriver.Agreed;
      polls, sent := [], [];
      ghost var heard: Option<ErrorCode>;
      if phase.Handshake? {
        done, polls, sent := ShakeHands(elapsed);
      } else if elapsed - runStarted >= config.runTimeout {
        done := Err(Timeout);
      } else if phase.Running? {
        done, polls, sent := PlayFrame();
      } else {
        done, polls, sent, heard := Confirm();
      }
    }

    /** One step. Failure and completion are final; a clock that runs backwards is refused without failing. */
    method Step(elapsed: u64) returns (r: Result<PeerStep>, ghost polls: seq<Poll>, ghost sent: seq<Outgoing>)
      requires Valid()
      modifies this, session, session.storage.repr, window, tracker, socket
      ensures Valid() && CanBecome(old(phase), phase) && Logged(polls, sent)
      ensures old(failure).Some? ==>
          r == Err(old(failure).value) && Observation() == old(Observation()) && Idles(polls, sent)
      ensures old(phase).Finished? ==>
          r == Ok(old(Observation())) && artifacts == old(artifacts) && Observation() == old(Observation())
          && Idles(polls, sent)
      ensures !old(phase).Failed? && !old(phase).Finished? ==>
          if elapsed < old(lastElapsed) then
            r == Err(InvalidArgument) && Observation() == old(Observation()) && Idles(polls, sent)
          else if r.Err? then phase.Failed? && failure == Some(r.error) && logicalTick == old(logicalTick)
          else r == Ok(Observation()) && failure.None? && logicalTick == old(logicalTick) + 1
      ensures phase.Finished? && !old(phase).Finished? ==>
          old(phase).Confirming? && old(drainProgress) + 1 >= 16 && Concluded()
      ensures !old(phase).Failed? && !old(phase).Finished? && old(lastElapsed) <= elapsed ==>
          && runStarted == (if old(phase).Handshake? && phase.Running? then elapsed else old(runStarted))
          && if elapsed >=
                (if old(phase).Handshake? then config.handshakeTimeout else old(runStarted) + config.runTimeout)
             then r == Err(Timeout) && Idles(polls, sent)
             else Proceeds(polls, sent, if r.Err? then Some(r.error) else None)
    {
      hide RollbackSession.Valid, SequenceWindow.Valid, Kept, IsReplayOf, Played, Timeline.State, HashCanonical,
           PlaysFrame, Resends, Shakes, PeerDriver.Concludable, PeerDriver.Agreed, PeerDriver.Concluded,
           PeerDriver.Linked;
      polls, sent := [], [];
      if failure.Some? {
        return Err(failure.value), polls, sent;
      }
      if phase.Finished? {
        return Ok(Observation()), polls, sent;
      }
      if elapsed < lastElapsed {
        return Err(InvalidArgument), polls, sent;
      }
      Apart();
      lastElapsed := elapsed;
      var done;
      done, polls, sent := Proceed(elapsed);
      Apart();
      if done.Err? {
        r := Fail(done.error);
        return;
      }
      logicalTick := logicalTick + 1;
      r := Ok(Observation());
    }
  }

  lemma AdvanceIsKept(c: PeerConfig, clean: bool, t: Timeline, input: InputFrame)
    requires Kept(c, clean, t) && t.HasRoom()
    ensures t.Valid() && Kept(c, clean, t.Advanced(input))
  {
    hide Timeline.Valid, UsesInputs, Unevicted, Timeline.Advanced;
    AdvancedIsValid(t, input);
    AdvancedUsesInputs(t, input);
    AdvancedKeepsBase(t, input);
    if c.engine && clean {
      AdvancedUnevicted(t, input);
    }
  }

  lemma KeptUsesInputs(c: PeerConfig, clean: bool, t: Timeline)
    requires Kept(c, clean, t)
    ensures t.Valid() && UsesInputs(t) && t.Base() == 0 && (c.engine && clean ==> Unevicted(t))
  {
    hide Timeline.Valid, UsesInputs, Unevicted;
  }

  lemma AdvancedKeepsBase(t: Timeline, input: InputFrame)
    requires t.Valid()
    ensures t.Advanced(input).Base() == t.Base()
  {
    hide Sound;
  }

  lemma RingsAnswer(session: RollbackSession)
    requires session.Valid()
    ensures session.timeline.Base() == session.config.initial.frame
      && session.timeline.Now() < session.timeline.Base() + HALF
    ensures session.timeline.config == session.config
  {
    hide Storage.Valid, Caches;
    session.RingsAnswer();
  }

  lemma ConfirmedAtTarget(session: RollbackSession, frameCount: u32)
    requires session.Valid() && session.timeline.Now() == frameCount && session.timeline.Base() == 0
    ensures Tag(session.timeline.confirmed) == frameCount <==> session.timeline.confirmed == session.timeline.Now()
  {
    hide Timeline.Valid, Storage.Valid, Caches;
    Boundaries(session.timeline);
  }

  lemma CurrentTag(session: RollbackSession)
    requires session.Valid() && session.config.initial.frame == 0
    ensures session.state.frame == Tag(session.timeline.Now()) && session.timeline.Valid()
    ensures session.timeline.Now() == |session.timeline.local| && session.timeline.Base() == 0
    ensures session.timeline.config == session.config
  {
    hide Timeline.Valid, Storage.Valid, Caches;
    CurrentFrame(session.timeline);
  }

  lemma SessionIsShort(session: RollbackSession)
    requires session.Valid() && session.config.initial.frame == 0 && session.timeline.Now() <= CAPACITY
    ensures Short(session.timeline) && session.timeline.config == session.config
  {
    hide Timeline.Valid, Storage.Valid, Caches;
  }

  lemma UnevictedHolds(t: Timeline)
    requires Unevicted(t) && t.Base() == 0
    ensures Holding(t)
  {
  }

  lemma ArchivesVerifies(replay: Result<Replays.Replay>, t: Timeline, hash: u64)
    requires Archives(replay, t, hash)
    ensures replay.Ok? && Replays.Holds(replay.value) && Replays.Encodable(replay.value)
      && replay.value.expectedHash == hash
  {
    hide Replays.Holds;
  }

  lemma UnstartedUsesInputs(session: RollbackSession)
    requires session.Valid() && session.timeline.Now() == session.timeline.Base()
    ensures UsesInputs(session.timeline)
  {
    hide Storage.Valid, Caches;
    ValidTimeline(session.timeline);
  }

  /** `create`: only a session of the right player at frame 0 and a target the rings can hold are taken. */
  method Create(c: PeerConfig, script: Script, hello: seq<u8>, session: RollbackSession) returns (r: Result<PeerDriver>)
    requires session.Valid() && (session.state.frame == 0 ==> session.config.initial.frame == 0)
    requires session.config.initial.nextId + 2 * (CAPACITY + 1) < U32
    requires forall frame, p :: script(frame, p) < 32
    ensures r.Ok? <==>
        0 < c.frameCount <= (if c.engine then 240 else 256) && session.state.frame == 0 && session.config.local == c.id
    ensures r.Err? ==> r == Err(InvalidArgument)
    ensures r.Ok? ==> r.value.Valid() && r.value.session == session && r.value.phase == Handshake
    ensures r.Ok? ==> r.value.config == c && r.value.script == script && r.value.hello == hello
    ensures r.Ok? ==> r.value.clean == Unevicted(session.timeline)
  {
    hide RollbackSession.Valid, UsesInputs, Unevicted;
    if c.frameCount == 0 || c.frameCount > FrameLimit(c) || session.state.frame != 0 || session.config.local != c.id {
      return Err(InvalidArgument);
    }
    CurrentTag(session);
    RingsAnswer(session);
    var driver := new PeerDriver(c, script, hello, session);
    r := Ok(driver);
  }
}
