/**
 * What a datagram peer makes of the datagrams it is handed: `receive_one`, `drain_available` and `send_inputs` of
 * src/udp/peer.cpp, over values.
 */
module Receptions {
  import opened Core
  import opened FrameRings
  import opened Simulation
  import opened SimulationLaws
  import opened Canonical
  import opened Timelines
  import opened SessionLaws
  import opened SequenceWindows
  import opened Codec
  import Crc32s
  import opened Desyncs
  import opened Exchange
  import opened Protocol
  import opened PeerReplays

  const DRAIN_LIMIT: int := 64

  /** `digest` is the expected digest of the agreed configuration; `engine` selects the engine profile. */
  datatype PeerConfig = PeerConfig(id: PlayerId, scenarioSeed: u64, transportSeed: u64, frameCount: u32, digest: u64,
                                   engine: bool, relayPort: u16, handshakeTimeout: u32, runTimeout: u32)

  datatype Datagram = Datagram(bytes: seq<u8>, port: u16)

  /** What asking the socket once gives: nothing, a failure, or a datagram. */
  datatype Poll = Silence | Failure | Arrival(datagram: Datagram)

  function HelloError(c: PeerConfig, p: Packet): Option<ErrorCode> {
    if p.kind != HELLO || p.sender != Other(c.id) || p.scenario != c.scenarioSeed
      || p.hello.None? then Some(InvalidArgument)
    else if p.hello.value.simulationVersion != SIMULATION_VERSION then Some(UnsupportedVersion)
    else if p.hello.value.targetFrame != c.frameCount || p.hello.value.digest != c.digest then Some(InvalidArgument)
    else None
  }

  // ---- Sequence numbers and inputs of arbitrary datagrams ----

  /** The unbounded number nearest to the newest one received that carries this sequence. */
  ghost function NumberOf(w: Window, sequence: u32): int {
    if w.newest.None? then sequence
    else
      var ahead := (sequence - w.newest.value) % U32;
      if ahead < HALF then w.newest.value + ahead else w.newest.value + ahead - U32
  }

  lemma NumberIsNear(w: Window, sequence: u32)
    ensures Tag(NumberOf(w, sequence)) == sequence
    ensures w.newest.Some? ==> -HALF <= NumberOf(w, sequence) - w.newest.value < HALF
  {
    if w.newest.Some? {
      var n := w.newest.value;
      var q := (sequence - n) / U32;
      assert sequence - n == q * U32 + (sequence - n) % U32;
      assert (NumberOf(w, sequence) - sequence) % U32 == 0;
      TagDifference(sequence, NumberOf(w, sequence));
    }
  }

  lemma {:induction false} IngestedAllUsesInputs(t: Timeline, inputs: seq<InputFrame>)
    requires t.Valid() && UsesInputs(t)
    ensures UsesInputs(IngestedAll(t, inputs).0)
    decreases |inputs|
  {
    hide Timeline.Valid, UsesInputs, Timeline.Ingested, Timeline.IngestError;
    if inputs != [] && t.IngestError(inputs[0]).None? {
      IngestedUsesInputs(t, inputs[0]);
      IngestedIsValid(t, inputs[0]);
      IngestedAllUsesInputs(t.Ingested(inputs[0]), inputs[1..]);
    }
  }

  lemma {:induction false} IngestedAllEvictsNothing(t: Timeline, inputs: seq<InputFrame>)
    requires t.Valid() && Unevicted(t) && t.Base() == 0
    requires forall i :: 0 <= i < |inputs| ==> inputs[i].frame < CAPACITY
    ensures Unevicted(IngestedAll(t, inputs).0)
    decreases |inputs|
  {
    hide Timeline.Valid, Unevicted, Timeline.Ingested, Timeline.IngestError, Timeline.Placed;
    if inputs != [] && t.IngestError(inputs[0]).None? {
      SmallTag(inputs[0].frame);
      PlacedFrame(t, inputs[0].frame);
      IngestedUnevicted(t, inputs[0]);
      IngestKeepsClock(t, inputs[0]);
      IngestedIsValid(t, inputs[0]);
      IngestedAllEvictsNothing(t.Ingested(inputs[0]), inputs[1..]);
    }
  }

  /** Ingest in order, then correct unless an ingest failed. */
  ghost function Absorbed(t: Timeline, inputs: seq<InputFrame>): (Timeline, Option<ErrorCode>)
    requires t.Valid()
  {
    hide Timeline.Valid, IngestedAll;
    var (u, error) := IngestedAll(t, inputs);
    IngestedAllIsValid(t, inputs);
    (if error.Some? then u else u.Flushed(), error)
  }

  ghost predicate AgreesWith(t: Timeline, hash: ConfirmedHash) {
    |t.used| == |t.local| && (t.HashAnswer(hash.frame).Ok? ==> t.HashAnswer(hash.frame).value == hash.hash)
  }

  lemma AnsweredBoth(t: Timeline, tag: u32)
    requires |t.used| == |t.local|
    ensures t.HashAnswer(tag).Ok? ==> t.StateAnswer(tag).Ok?
  {
    hide Worlds, HashCanonical, Nearest;
  }

  /** Some hash differs from the session's own answer. */
  ghost predicate Contradicted(t: Timeline, hashes: seq<ConfirmedHash>) {
    exists i :: 0 <= i < |hashes| && !AgreesWith(t, hashes[i])
  }

  /**
   * The packet of an honest remote keeps the session honest, and then a hash in it differs from the session's answer
   * only for a boundary at which the two direct simulations differ: never when both play by the same rules.
   */
  lemma HonestRemoteAgrees(s: Setup, p: PlayerId, t: Timeline, letter: Letter, packet: Packet)
    requires Scripting(s, p, t) && GoodLetter(s, letter) && letter.to == p && letter.packet == packet
    ensures t.Valid()
    ensures var (u, error) := Absorbed(t, packet.inputs);
      && Scripting(s, p, u)
      && (error.None? ==> forall i :: 0 <= i < |packet.hashes| ==>
            (AgreesWith(u, packet.hashes[i])
             <==> (u.HashAnswer(packet.hashes[i].frame).Ok? ==> !FoldsDiffer(s, packet.hashes[i].frame))))
      && (error.None? && s.variantA == s.variantB ==> !Contradicted(u, packet.hashes))
  {
    hide Timeline.Valid, Timeline.HashAnswer, HashCanonical, PairFold, IngestedAll, ComparedAll,
         Timeline.Flushed, GoodInput, FrameFrom, Labelled, ScriptedBefore, Pictures;
    var peer := Peer(Endpoint(t, EMPTY, None), [], 1);
    OpeningIsGood(s, p, peer, letter, EMPTY);
    var (u, error) := Absorbed(t, packet.inputs);
    AnswerIsTheFold(s, p, u, 0);
    if error.None? {
      forall i | 0 <= i < |packet.hashes|
        ensures AgreesWith(u, packet.hashes[i])
            <==> (u.HashAnswer(packet.hashes[i].frame).Ok? ==> !FoldsDiffer(s, packet.hashes[i].frame))
      {
        assert GoodHash(s, Other(p), packet.hashes[i]);
        AnswerIsTheFold(s, p, u, packet.hashes[i].frame);
      }
    }
  }

  predicate PastTarget(inputs: seq<InputFrame>, frameCount: u32) {
    exists i :: 0 <= i < |inputs| && inputs[i].frame >= frameCount
  }

  // ---- One datagram ----

  /** What receiving changes in a peer. */
  datatype Intake = Intake(session: Timeline, window: Window, finalHash: Option<u64>, diagnostic: Option<Diagnostic>)

  /** The first hash that differs from the session's answer is a desync; one for the target is remembered. */
  ghost function Checked(c: PeerConfig, i: Intake, hashes: seq<ConfirmedHash>): (r: (Intake, Option<ErrorCode>))
    requires |i.session.used| == |i.session.local|
    ensures r.0.session == i.session && r.0.window == i.window
    decreases |hashes|
  {
    if hashes == [] then (i, None)
    else
      var local := i.session.HashAnswer(hashes[0].frame);
      if local.Ok? && local.value != hashes[0].hash then
        (i.(diagnostic := Compared(i.session, i.diagnostic, hashes[0], c.scenarioSeed)), Some(Desync))
      else
        Checked(c, if local.Ok? && hashes[0].frame == c.frameCount then i.(finalHash := Some(hashes[0].hash)) else i,
          hashes[1..])
  }

  /** A new input packet: the engine profile's guard, then ingest, correct and compare. */
  ghost function Unpacked(c: PeerConfig, i: Intake, packet: Packet): (r: (Intake, Option<ErrorCode>))
    requires i.session.Valid()
    ensures r.0.session.Valid() && r.0.window == i.window
  {
    hide Timeline.Valid;
    if c.engine && PastTarget(packet.inputs, c.frameCount) then (i, Some(FrameMismatch))
    else
      AbsorbedIsValid(i.session, packet.inputs);
      var (t, error) := Absorbed(i.session, packet.inputs);
      if error.Some? then (i.(session := t), error) else Checked(c, i.(session := t), packet.hashes)
  }

  lemma AbsorbedIsValid(t: Timeline, inputs: seq<InputFrame>)
    requires t.Valid()
    ensures var u := Absorbed(t, inputs).0;
      && u.Valid() && |u.used| == |u.local| && u.config == t.config && u.local == t.local && u.Now() == t.Now()
  {
    hide Sound, IngestedAll;
    IngestedAllIsValid(t, inputs);
    var u := IngestedAll(t, inputs).0;
    FlushedIsValid(u);
    FlushKeepsConfig(u);
  }

  /** `receive_one` on a datagram: every check of it, in its order. */
  ghost function Taken(c: PeerConfig, i: Intake, d: Datagram): (r: (Intake, Option<ErrorCode>))
    requires i.session.Valid()
    ensures r.0.session.Valid()
  {
    hide Timeline.Valid, Decoded;
    if c.engine && d.port != c.relayPort then (i, Some(InvalidArgument))
    else
      var decoded := Decoded(d.bytes);
      if decoded.Err? then (i, Some(decoded.error))
      else
        var p := decoded.value;
        if p.sender != Other(c.id) || p.scenario != c.scenarioSeed then (i, Some(InvalidArgument))
        else if p.kind == HELLO then (i, HelloError(c, p))
        else if p.kind != INPUT then (i, Some(UnknownPacketType))
        else
          var number := NumberOf(i.window, p.sequence);
          var seen := i.(window := Observed(i.window, number));
          if Accepted(Judged(i.window, number)) then Unpacked(c, seen, p) else (seen, None)
  }

  // ---- Draining ----

  /** Polls in order, up to the first silence, failure or error. */
  ghost function Drained(c: PeerConfig, i: Intake, polls: seq<Poll>): (r: (Intake, Option<ErrorCode>))
    requires i.session.Valid()
    ensures r.0.session.Valid()
    decreases |polls|
  {
    hide Timeline.Valid, Taken;
    if polls == [] then (i, None)
    else
      match polls[0]
      case Silence => (i, None)
      case Failure => (i, Some(IoError))
      case Arrival(d) =>
        var (j, error) := Taken(c, i, d);
        if error.Some? then (j, error) else Drained(c, j, polls[1..])
  }

  /** Every one of these polls gave a datagram that was dealt with. */
  ghost predicate Draining(c: PeerConfig, i: Intake, polls: seq<Poll>)
    requires i.session.Valid()
  {
    (forall k :: 0 <= k < |polls| ==> polls[k].Arrival?) && Drained(c, i, polls).1.None?
  }

  /** Asking stops at the first silence, failure or error, and after 64 datagrams. */
  ghost predicate DrainsFully(c: PeerConfig, i: Intake, polls: seq<Poll>)
    requires i.session.Valid()
  {
    && |polls| <= 64 && polls != []
    && Draining(c, i, polls[..|polls| - 1])
    && (Drained(c, i, polls).1.None? ==> |polls| == 64 || polls[|polls| - 1].Silence?)
  }

  lemma {:induction false} DrainedSnoc(c: PeerConfig, i: Intake, polls: seq<Poll>, poll: Poll)
    requires i.session.Valid() && forall k :: 0 <= k < |polls| ==> polls[k].Arrival?
    ensures Drained(c, i, polls + [poll])
         == if Drained(c, i, polls).1.Some? then Drained(c, i, polls) else Drained(c, Drained(c, i, polls).0, [poll])
    decreases |polls|
  {
    hide Timeline.Valid, Taken;
    if polls == [] {
      assert [] + [poll] == [poll];
    } else {
      assert (polls + [poll])[1..] == polls[1..] + [poll];
      var (j, error) := Taken(c, i, polls[0].datagram);
      if error.None? {
        DrainedSnoc(c, j, polls[1..], poll);
      }
    }
  }

  /** One more poll after a drain so far. */
  lemma DrainOneMore(c: PeerConfig, i: Intake, polls: seq<Poll>, poll: Poll)
    requires i.session.Valid() && Draining(c, i, polls)
    ensures var j := Drained(c, i, polls).0;
      Drained(c, i, polls + [poll]) == Drained(c, j, [poll])
    ensures poll.Arrival? && Drained(c, i, polls + [poll]).1.None? ==> Draining(c, i, polls + [poll])
    ensures |polls| < 64 && (!poll.Arrival? || Drained(c, i, polls + [poll]).1.Some? || |polls| == 63) ==>
        DrainsFully(c, i, polls + [poll])
  {
    hide Timeline.Valid, Drained;
    DrainedSnoc(c, i, polls, poll);
    OnePoll(c, Drained(c, i, polls).0, poll);
    assert (polls + [poll])[..|polls|] == polls;
  }

  lemma OnePoll(c: PeerConfig, i: Intake, poll: Poll)
    requires i.session.Valid()
    ensures Drained(c, i, [poll]) ==
      match poll
      case Silence => (i, None)
      case Failure => (i, Some(IoError))
      case Arrival(d) => Taken(c, i, d)
  {
    hide Timeline.Valid, Taken;
    assert [poll][1..] == [];
  }

  lemma NothingDrained(c: PeerConfig, i: Intake)
    requires i.session.Valid()
    ensures Drained(c, i, []) == (i, None)
  {
  }

  // ---- What counts as new ----

  /** An input packet from the right place, of the right peer and scenario, not seen before and not 64 behind. */
  ghost predicate IsNew(c: PeerConfig, w: Window, d: Datagram) {
    && (c.engine ==> d.port == c.relayPort)
    && Decoded(d.bytes).Ok?
    && var p := Decoded(d.bytes).value;
       && p.sender != c.id && p.scenario == c.scenarioSeed && p.kind == 2
       && NumberOf(w, p.sequence) !in w.accepted
       && (w.newest.Some? ==> w.newest.value - NumberOf(w, p.sequence) < 64)
  }

  /**
   * A new input packet is ingested and corrected, unless the engine profile refuses it, and its number is remembered;
   * nothing else touches the session, what is remembered, or the diagnostic.
   */
  lemma OnlyNewPacketsAreTaken(c: PeerConfig, i: Intake, d: Datagram)
    requires i.session.Valid() && Coherent(i.window)
    ensures var (j, error) := Taken(c, i, d);
      && Coherent(j.window)
      && (IsNew(c, i.window, d) ==>
            var p := Decoded(d.bytes).value;
            && j.window.accepted == i.window.accepted + {NumberOf(i.window, p.sequence)}
            && if c.engine && exists k :: 0 <= k < |p.inputs| && p.inputs[k].frame >= c.frameCount then
                 j.session == i.session && error == Some(FrameMismatch)
               else
                 var (t, refused) := Absorbed(i.session, p.inputs);
                 j.session == t && (refused.Some? ==> error == refused))
      && (!IsNew(c, i.window, d) ==>
            j.session == i.session && j.window == i.window && j.finalHash == i.finalHash
            && j.diagnostic == i.diagnostic)
  {
    hide Timeline.Valid, Decoded, Absorbed, HelloError, Checked;
    if IsNew(c, i.window, d) {
      var p := Decoded(d.bytes).value;
      AbsorbedIsValid(i.session, p.inputs);
    }
  }

  /** The error of a datagram that is not a new input packet. */
  lemma RefusalsSayWhy(c: PeerConfig, i: Intake, d: Datagram)
    requires i.session.Valid() && Coherent(i.window)
    ensures var error := Taken(c, i, d).1;
      if c.engine && d.port != c.relayPort then error == Some(InvalidArgument)
      else if Decoded(d.bytes).Err? then error == Some(Decoded(d.bytes).error)
      else
        var p := Decoded(d.bytes).value;
        if p.sender == c.id || p.scenario != c.scenarioSeed then error == Some(InvalidArgument)
        else if p.kind == 1 then
          if p.hello.None? then error == Some(InvalidArgument)
          else if p.hello.value.simulationVersion != 1 then error == Some(UnsupportedVersion)
          else if p.hello.value.targetFrame != c.frameCount || p.hello.value.digest != c.digest then
            error == Some(InvalidArgument)
          else error == None
        else if p.kind != 2 then error == Some(UnknownPacketType)
        else !IsNew(c, i.window, d) ==> error == None
  {
    hide Timeline.Valid, Decoded, Unpacked;
  }

  // ---- What receiving keeps ----

  /** A short session that uses its inputs and, where the engine profile guards it, has lost none of them. */
  ghost predicate Kept(c: PeerConfig, clean: bool, t: Timeline) {
    && t.Valid() && t.Base() == 0 && UsesInputs(t) && (c.engine && clean ==> Unevicted(t))
  }

  ghost predicate SameClock(t: Timeline, u: Timeline) {
    u.config == t.config && u.local == t.local && u.Now() == t.Now()
  }

  lemma AbsorbedIsKept(c: PeerConfig, clean: bool, t: Timeline, inputs: seq<InputFrame>)
    requires Kept(c, clean, t) && c.frameCount <= CAPACITY && !(c.engine && PastTarget(inputs, c.frameCount))
    ensures Kept(c, clean, Absorbed(t, inputs).0) && SameClock(t, Absorbed(t, inputs).0)
  {
    hide Timeline.Valid, UsesInputs, Unevicted, IngestedAll, Timeline.Flushed;
    var u := IngestedAll(t, inputs).0;
    IngestedAllIsValid(t, inputs);
    IngestedAllUsesInputs(t, inputs);
    FlushedIsValid(u);
    FlushedUsesInputs(u);
    FlushKeepsConfig(u);
    if c.engine && clean {
      IngestedAllEvictsNothing(t, inputs);
      FlushedUnevicted(u);
    }
  }

  lemma TakenIsKept(c: PeerConfig, clean: bool, i: Intake, d: Datagram)
    requires Kept(c, clean, i.session) && c.frameCount <= CAPACITY && Coherent(i.window)
    ensures Kept(c, clean, Taken(c, i, d).0.session) && SameClock(i.session, Taken(c, i, d).0.session)
    ensures Coherent(Taken(c, i, d).0.window)
  {
    hide Kept, Taken, Absorbed, IsNew, Decoded;
    KeptIsValid(c, clean, i.session);
    OnlyNewPacketsAreTaken(c, i, d);
    if IsNew(c, i.window, d) {
      NewDecodes(c, i.window, d);
      var inputs := Decoded(d.bytes).value.inputs;
      if !(c.engine && PastTarget(inputs, c.frameCount)) {
        AbsorbedIsKept(c, clean, i.session, inputs);
      }
    }
  }

  lemma NewDecodes(c: PeerConfig, w: Window, d: Datagram)
    requires IsNew(c, w, d)
    ensures Decoded(d.bytes).Ok?
  {
    hide Decoded;
  }

  lemma KeptIsValid(c: PeerConfig, clean: bool, t: Timeline)
    requires Kept(c, clean, t)
    ensures t.Valid()
  {
    hide Timeline.Valid, UsesInputs, Unevicted;
  }

  lemma {:induction false} DrainedIsKept(c: PeerConfig, clean: bool, i: Intake, polls: seq<Poll>)
    requires Kept(c, clean, i.session) && c.frameCount <= CAPACITY && Coherent(i.window)
    ensures i.session.Valid()
    ensures var j := Drained(c, i, polls).0;
      Kept(c, clean, j.session) && SameClock(i.session, j.session) && Coherent(j.window)
    decreases |polls|
  {
    hide Kept, Taken;
    KeptIsValid(c, clean, i.session);
    if polls != [] && polls[0].Arrival? {
      TakenIsKept(c, clean, i, polls[0].datagram);
      DrainedIsKept(c, clean, Taken(c, i, polls[0].datagram).0, polls[1..]);
    }
  }

  // ---- An honest remote ----

  /** Every input packet of the remote, for this scenario, is one an honest peer could have sent. */
  ghost predicate HonestPoll(s: Setup, c: PeerConfig, poll: Poll) {
    poll.Arrival? && Decoded(poll.datagram.bytes).Ok? ==>
      var p := Decoded(poll.datagram.bytes).value;
      p.kind == INPUT && p.sender == Other(c.id) && p.scenario == c.scenarioSeed ==>
        exists letter: Letter :: GoodLetter(s, letter) && letter.to == c.id && letter.packet == p
  }

  /** The session simulates the script, the diagnostic is real, and the hash remembered for the target is the fold's. */
  ghost predicate Truthful(s: Setup, c: PeerConfig, i: Intake) {
    && Scripting(s, c.id, i.session) && RealDesync(s, c.id, i.diagnostic)
    && (i.finalHash.Some? ==>
          i.finalHash.value == HashCanonical(PairFold(s, s.VariantOf(Other(c.id)), c.frameCount)))
  }

  lemma {:induction false} CheckedIsTruthful(s: Setup, c: PeerConfig, i: Intake, hashes: seq<ConfirmedHash>)
    requires Truthful(s, c, i) && s.Base() == 0 && s.scenario == c.scenarioSeed
    requires forall k :: 0 <= k < |hashes| ==> GoodHash(s, Other(c.id), hashes[k])
    ensures |i.session.used| == |i.session.local|
    ensures var (j, error) := Checked(c, i, hashes);
      && Truthful(s, c, j) && (error.Some? ==> error == Some(Desync) && s.variantA != s.variantB)
    decreases |hashes|
  {
    hide Scripting, RealDesync, Compared, Timeline.HashAnswer, HashCanonical, PairFold, FrameFrom;
    AnswerIsTheFold(s, c.id, i.session, 0);
    if hashes != [] {
      assert GoodHash(s, Other(c.id), hashes[0]);
      AnswerIsTheFold(s, c.id, i.session, hashes[0].frame);
      ComparedIsReal(s, c.id, i.session, i.diagnostic, hashes[0]);
      SmallTag(hashes[0].frame);
      FrameFromTag(0, hashes[0].frame);
      var local := i.session.HashAnswer(hashes[0].frame);
      if !(local.Ok? && local.value != hashes[0].hash) {
        var next := if local.Ok? && hashes[0].frame == c.frameCount then i.(finalHash := Some(hashes[0].hash)) else i;
        CheckedIsTruthful(s, c, next, hashes[1..]);
      }
    }
  }

  lemma UnpackedIsTruthful(s: Setup, c: PeerConfig, i: Intake, letter: Letter, packet: Packet)
    requires Truthful(s, c, i) && s.Base() == 0 && s.scenario == c.scenarioSeed
    requires GoodLetter(s, letter) && letter.to == c.id && letter.packet == packet
    ensures i.session.Valid()
    ensures var (j, error) := Unpacked(c, i, packet);
      Truthful(s, c, j) && (error == Some(Desync) ==> s.variantA != s.variantB)
  {
    hide Scripting, RealDesync, Timeline.Valid, Absorbed, Contradicted, AgreesWith, FoldsDiffer, GoodHash, GoodInput,
         Labelled, HashCanonical, PairFold;
    HonestRemoteAgrees(s, c.id, i.session, letter, packet);
    AbsorbedIsValid(i.session, packet.inputs);
    var (t, error) := Absorbed(i.session, packet.inputs);
    RefusedIngests(i.session, packet.inputs);
    if error.None? {
      CheckedIsTruthful(s, c, i.(session := t), packet.hashes);
    }
  }

  lemma RefusedIngests(t: Timeline, inputs: seq<InputFrame>)
    requires t.Valid()
    ensures Absorbed(t, inputs).1 != Some(Desync)
  {
    hide Timeline.Valid, Timeline.Flushed;
    IngestErrors(t, inputs);
  }

  lemma {:induction false} IngestErrors(t: Timeline, inputs: seq<InputFrame>)
    requires t.Valid()
    ensures IngestedAll(t, inputs).1 != Some(Desync)
    decreases |inputs|
  {
    hide Timeline.Valid, Timeline.Ingested;
    if inputs != [] && t.IngestError(inputs[0]).None? {
      IngestedIsValid(t, inputs[0]);
      IngestErrors(t.Ingested(inputs[0]), inputs[1..]);
    }
  }

  lemma TakenIsTruthful(s: Setup, c: PeerConfig, i: Intake, d: Datagram)
    requires Truthful(s, c, i) && s.Base() == 0 && s.scenario == c.scenarioSeed && HonestPoll(s, c, Arrival(d))
    ensures i.session.Valid()
    ensures var (j, error) := Taken(c, i, d);
      Truthful(s, c, j) && (error == Some(Desync) ==> s.variantA != s.variantB)
  {
    hide RealDesync, Timeline.Valid, Unpacked, GoodLetter, HashCanonical, PairFold, Decoded, Honest;
    DecodeErrors(d.bytes);
    if Decoded(d.bytes).Ok? {
      var p := Decoded(d.bytes).value;
      if p.kind == INPUT && p.sender == Other(c.id) && p.scenario == c.scenarioSeed {
        var letter: Letter :| GoodLetter(s, letter) && letter.to == c.id && letter.packet == p;
        var seen := i.(window := Observed(i.window, NumberOf(i.window, p.sequence)));
        UnpackedIsTruthful(s, c, seen, letter, p);
      }
    }
  }

  lemma DecodeErrors(bytes: seq<u8>)
    ensures Decoded(bytes).Err? ==> Decoded(bytes).error != Desync
  {
    hide Crc32s.Intact, OrderedHashes, InputsAccepted;
  }

  /**
   * Draining an honest remote keeps the session scripted, any diagnostic real and the remembered hash true, and never
   * ends in a desync between peers of one variant.
   */
  lemma {:induction false} DrainIsTruthful(s: Setup, c: PeerConfig, i: Intake, polls: seq<Poll>)
    requires Truthful(s, c, i) && s.Base() == 0 && s.scenario == c.scenarioSeed
    requires forall k :: 0 <= k < |polls| ==> HonestPoll(s, c, polls[k])
    ensures i.session.Valid()
    ensures var (j, error) := Drained(c, i, polls);
      Truthful(s, c, j) && (error == Some(Desync) ==> s.variantA != s.variantB)
    decreases |polls|
  {
    hide Truthful, Taken, HonestPoll;
    TruthfulIsValid(s, c, i);
    if polls != [] && polls[0].Arrival? {
      assert HonestPoll(s, c, polls[0]);
      TakenIsTruthful(s, c, i, polls[0].datagram);
      DrainIsTruthful(s, c, Taken(c, i, polls[0].datagram).0, polls[1..]);
    }
  }

  lemma TruthfulIsValid(s: Setup, c: PeerConfig, i: Intake)
    requires Truthful(s, c, i)
    ensures i.session.Valid()
  {
    hide RealDesync, Timeline.Valid, Honest, HashCanonical, PairFold;
  }

  // ---- The frames of a peer ----

  /** A datagram handed to the socket, whether or not it could be sent. */
  datatype Outgoing = Outgoing(port: u16, bytes: seq<u8>)

  datatype Driving = Driving(intake: Intake, history: seq<InputFrame>, sequence: u32)

  /** The one packet a step sends: this session's, numbered `sequence`, to the relay. */
  ghost predicate SendsPacket(c: PeerConfig, t: Timeline, history: seq<InputFrame>, sequence: u32,
      sent: seq<Outgoing>)
  {
    && |t.used| == |t.local|
    && var packet := MadePacket(t, history, c.scenarioSeed, sequence);
       Encoded(packet).Ok? && sent == [Outgoing(c.relayPort, Encoded(packet).value)]
  }

  /** The scripted input of frame `n`, the frame an unwrapped session is at. */
  function OwnInput(c: PeerConfig, script: Script, n: u32): InputFrame { InputFrame(n, c.id, n, script(n, c.id)) }

  /** A running step: drain, then advance by the script's next input and send. An error while draining stops it. */
  ghost predicate PlaysFrame(c: PeerConfig, script: Script, before: Driving, polls: seq<Poll>, sent: seq<Outgoing>,
      after: Driving, error: Option<ErrorCode>)
  {
    && before.intake.session.Valid() && DrainsFully(c, before.intake, polls) && |before.history| < U32
    && var (i, refused) := Drained(c, before.intake, polls);
       if refused.Some? then
         error == refused && after == before.(intake := i) && sent == []
       else
         var own := OwnInput(c, script, |before.history|);
         && after == Driving(i.(session := i.session.Advanced(own)), before.history + [own],
                             NextFrame(before.sequence))
         && SendsPacket(c, after.intake.session, after.history, before.sequence, sent)
         && (error.None? || error == Some(IoError))
  }

  /** A confirming step: send again, then drain; an error in sending stops it before anything is received. */
  ghost predicate Resends(c: PeerConfig, before: Driving, polls: seq<Poll>, sent: seq<Outgoing>, after: Driving,
      error: Option<ErrorCode>)
  {
    && before.intake.session.Valid()
    && SendsPacket(c, before.intake.session, before.history, before.sequence, sent)
    && after.history == before.history && after.sequence == NextFrame(before.sequence)
    && if polls == [] then
         after.intake == before.intake && error == Some(IoError)
       else
         DrainsFully(c, before.intake, polls) && (after.intake, error) == Drained(c, before.intake, polls)
  }

  /** A greeting of the other peer for the same scenario, target, rules and configuration. */
  ghost predicate Greets(c: PeerConfig, d: Datagram) {
    && (c.engine ==> d.port == c.relayPort)
    && Decoded(d.bytes).Ok?
    && var p := Decoded(d.bytes).value;
       && p.kind == 1 && p.sender != c.id && p.scenario == c.scenarioSeed && p.hello.Some?
       && p.hello.value.simulationVersion == 1 && p.hello.value.targetFrame == c.frameCount
       && p.hello.value.digest == c.digest
  }

  /** A handshake step: greet, ask once, and answer a greeting with another; anything else that arrives is an error. */
  ghost predicate Shakes(c: PeerConfig, hello: seq<u8>, polls: seq<Poll>, sent: seq<Outgoing>, running: bool,
      error: Option<ErrorCode>)
  {
    var greeting := Outgoing(c.relayPort, hello);
    if polls == [] then
      sent == [greeting] && error == Some(IoError) && !running
    else
      && |polls| == 1
      && match polls[0]
         case Silence => sent == [greeting] && error.None? && !running
         case Failure => sent == [greeting] && error == Some(IoError) && !running
         case Arrival(d) =>
           if Greets(c, d) then
             sent == [greeting, greeting] && (if running then error.None? else error == Some(IoError))
           else
             sent == [greeting] && error.Some? && !running
  }

  lemma GreetingsAreChecked(c: PeerConfig, d: Datagram)
    ensures Greets(c, d) <==>
        (c.engine ==> d.port == c.relayPort) && Decoded(d.bytes).Ok? && HelloError(c, Decoded(d.bytes).value).None?
  {
    hide Decoded;
  }

  // ---- Runs of a peer with an honest remote ----

  /** One step of a run: what it received, what it sent and how it ended. */
  datatype DriverStep = DriverStep(playing: bool, polls: seq<Poll>, sent: seq<Outgoing>, error: Option<ErrorCode>)

  ghost predicate Drives(c: PeerConfig, script: Script, before: Driving, step: DriverStep, after: Driving) {
    if step.playing then PlaysFrame(c, script, before, step.polls, step.sent, after, step.error)
    else Resends(c, before, step.polls, step.sent, after, step.error)
  }

  /** A peer that plays the setup's script from frame 0, honestly so far. */
  ghost predicate OnScript(s: Setup, c: PeerConfig, d: Driving) {
    && Truthful(s, c, d.intake) && s.Base() == 0 && s.scenario == c.scenarioSeed
    && d.intake.session.Now() == |d.history|
  }

  lemma AdvanceIsTruthful(s: Setup, c: PeerConfig, i: Intake, n: u32)
    requires Truthful(s, c, i) && s.Base() == 0 && i.session.Now() == n < CAPACITY && i.session.HasRoom()
    ensures i.session.Valid()
    ensures Truthful(s, c, i.(session := i.session.Advanced(OwnInput(c, s.script, n))))
    ensures i.session.Advanced(OwnInput(c, s.script, n)).Now() == n + 1
  {
    hide RealDesync, Timeline.Valid, Honest, HashCanonical, PairFold, Timeline.Advanced;
    SmallTag(n);
    var own := OwnInput(c, s.script, n);
    assert own == ScriptedInput(s, n, c.id);
    AdvanceIsHonest(i.session, own, TruthFor(s, c.id));
    AdvancedIsValid(i.session, own);
    AdvanceAppends(i.session, own);
  }

  /**
   * Against an honest remote every step keeps the session scripted, the diagnostic real and the remembered hash true;
   * peers of one variant never stop over a desync.
   */
  lemma DrivingIsTruthful(s: Setup, c: PeerConfig, before: Driving, step: DriverStep, after: Driving)
    requires OnScript(s, c, before) && Drives(c, s.script, before, step, after)
    requires forall k :: 0 <= k < |step.polls| ==> HonestPoll(s, c, step.polls[k])
    requires s.initial.nextId + 2 * (CAPACITY + 1) < U32 && (step.playing ==> |before.history| < CAPACITY)
    ensures OnScript(s, c, after)
    ensures step.error == Some(Desync) ==> s.variantA != s.variantB
  {
    hide Truthful, HonestPoll, DrainsFully, Drained, Timeline.Advanced, SendsPacket;
    TruthfulIsValid(s, c, before.intake);
    DrainIsTruthful(s, c, before.intake, step.polls);
    DrainKeepsClock(c, before.intake, step.polls);
    var (i, refused) := Drained(c, before.intake, step.polls);
    if step.playing && refused.None? {
      ShortHasRoom(s, c, i);
      AdvanceIsTruthful(s, c, i, |before.history|);
    }
  }

  lemma ShortHasRoom(s: Setup, c: PeerConfig, i: Intake)
    requires Truthful(s, c, i) && s.Base() == 0 && s.initial.nextId + 2 * (CAPACITY + 1) < U32
      && i.session.Now() < CAPACITY
    ensures i.session.HasRoom()
  {
    hide RealDesync, Timeline.Valid, Honest, HashCanonical, PairFold;
  }

  lemma {:induction false} DrainKeepsClock(c: PeerConfig, i: Intake, polls: seq<Poll>)
    requires i.session.Valid()
    ensures SameClock(i.session, Drained(c, i, polls).0.session)
    decreases |polls|
  {
    hide Timeline.Valid, Taken;
    if polls != [] && polls[0].Arrival? {
      TakenKeepsClock(c, i, polls[0].datagram);
      DrainKeepsClock(c, Taken(c, i, polls[0].datagram).0, polls[1..]);
    }
  }

  lemma TakenKeepsClock(c: PeerConfig, i: Intake, d: Datagram)
    requires i.session.Valid()
    ensures SameClock(i.session, Taken(c, i, d).0.session)
  {
    hide Timeline.Valid, Absorbed, Decoded, Checked;
    if Decoded(d.bytes).Ok? {
      AbsorbedIsValid(i.session, Decoded(d.bytes).value.inputs);
    }
  }

  ghost predicate DrivenRun(c: PeerConfig, script: Script, states: seq<Driving>, steps: seq<DriverStep>) {
    && |states| == |steps| + 1
    && forall k :: 0 <= k < |steps| ==>
         Drives(c, script, states[k], steps[k], states[k + 1])
         && (steps[k].playing ==> |states[k].history| < CAPACITY)
  }

  /** Over a whole run of the driver: everything received honestly leaves the session simulating the script. */
  lemma {:induction false} DrivenRunsAreTruthful(s: Setup, c: PeerConfig, states: seq<Driving>, steps: seq<DriverStep>,
      n: nat)
    requires DrivenRun(c, s.script, states, steps) && OnScript(s, c, states[0]) && n < |states|
    requires forall k, j :: 0 <= k < |steps| && 0 <= j < |steps[k].polls| ==> HonestPoll(s, c, steps[k].polls[j])
    requires s.initial.nextId + 2 * (CAPACITY + 1) < U32
    ensures OnScript(s, c, states[n])
    ensures s.variantA == s.variantB ==> forall k :: 0 <= k < n ==> steps[k].error != Some(Desync)
  {
    hide OnScript, Drives, HonestPoll;
    if n > 0 {
      DrivenRunsAreTruthful(s, c, states, steps, n - 1);
      DrivingIsTruthful(s, c, states[n - 1], steps[n - 1], states[n - 1 + 1]);
    }
  }
}
