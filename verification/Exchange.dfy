/**
 * One peer's side of the packet exchange: `make_packet` and `process_delivery`
 * (src/report/scenario_runner.cpp), over a session in unbounded time.
 */
module Exchange {
  import opened Core
  import opened Simulation
  import opened SimulationLaws
  import opened Canonical
  import opened Timelines
  import opened SessionLaws
  import opened SequenceWindows
  import opened Codec
  import opened Desyncs

  // ---- make_packet ----

  /** The last 32 inputs of a history. */
  function WindowFrom(history: seq<InputFrame>): (r: seq<InputFrame>)
    ensures |r| <= MAX_REDUNDANT_INPUTS && |r| <= |history|
    ensures forall i :: 0 <= i < |r| ==> r[i] == history[|history| - |r| + i]
  {
    if |history| > MAX_REDUNDANT_INPUTS then history[|history| - MAX_REDUNDANT_INPUTS..] else history
  }

  /** Confirmed hashes in ascending order, from `offset` boundaries behind the confirmed one, until one is missing. */
  ghost function HashesBehind(t: Timeline, offset: nat): (r: seq<ConfirmedHash>)
    requires |t.used| == |t.local|
    decreases MAX_CONFIRMED_HASHES - offset
  {
    if offset >= MAX_CONFIRMED_HASHES then []
    else
      var frame := Tag(t.confirmed - offset);
      var hash := t.HashAnswer(frame);
      if hash.Err? then [] else HashesBehind(t, offset + 1) + [ConfirmedHash(frame, hash.value)]
  }

  ghost function MadePacket(t: Timeline, history: seq<InputFrame>, scenario: u64, sequence: u32): Packet
    requires |t.used| == |t.local|
  {
    var confirmed := Tag(t.confirmed);
    Packet(PROTOCOL_VERSION, INPUT, t.config.local, sequence, confirmed, scenario, confirmed, WindowFrom(history),
           HashesBehind(t, 0), None)
  }

  // ---- process_delivery ----

  datatype Endpoint = Endpoint(session: Timeline, window: Window, diagnostic: Option<Diagnostic>)

  /** Ingest in order; the first error stops with everything before it already ingested. */
  ghost function IngestedAll(t: Timeline, inputs: seq<InputFrame>): (Timeline, Option<ErrorCode>)
    requires t.Valid()
    decreases |inputs|
  {
    if inputs == [] then (t, None)
    else if t.IngestError(inputs[0]).Some? then (t, t.IngestError(inputs[0]))
    else
      IngestKeepsClock(t, inputs[0]);
      IngestedIsValid(t, inputs[0]);
      IngestedAll(t.Ingested(inputs[0]), inputs[1..])
  }

  lemma IngestKeepsClock(t: Timeline, input: InputFrame)
    requires t.Valid()
    ensures t.Ingested(input).Now() == t.Now() && t.Ingested(input).config == t.config
      && t.Ingested(input).local == t.local
  {
    hide Sound;
  }

  lemma {:induction false} IngestedAllIsValid(t: Timeline, inputs: seq<InputFrame>)
    requires t.Valid()
    ensures var u := IngestedAll(t, inputs).0;
      u.Valid() && u.config == t.config && u.local == t.local && u.Now() == t.Now()
    decreases |inputs|
  {
    hide Timeline.Valid, Timeline.Ingested;
    if inputs != [] && t.IngestError(inputs[0]).None? {
      IngestKeepsClock(t, inputs[0]);
      IngestedIsValid(t, inputs[0]);
      IngestedAllIsValid(t.Ingested(inputs[0]), inputs[1..]);
    }
  }

  ghost function DiagnosticInputsFrom(t: Timeline, boundary: u32, offset: nat): seq<InputPair>
    decreases MAX_DIAGNOSTIC_INPUTS + 1 - offset
  {
    if offset > MAX_DIAGNOSTIC_INPUTS then []
    else
      var frame: u32 := (boundary - offset) % U32;
      var a, b := t.InputAnswer(A, frame), t.InputAnswer(B, frame);
      if a.Err? || b.Err? then [] else DiagnosticInputsFrom(t, boundary, offset + 1) + [InputPair(a.value, b.value)]
  }

  /** Up to 32 confirmed pairs, in frame order, ending just before the boundary. */
  lemma {:induction false} DiagnosticInputsPrecede(t: Timeline, boundary: u32, offset: nat)
    requires 1 <= offset <= MAX_DIAGNOSTIC_INPUTS + 1
    ensures var r := DiagnosticInputsFrom(t, boundary, offset);
      && |r| <= MAX_DIAGNOSTIC_INPUTS + 1 - offset
      && (forall i :: 0 <= i < |r| ==> DiagnosticPairAt(t, boundary, offset + |r| - 1 - i, r[i]))
      && (offset + |r| <= MAX_DIAGNOSTIC_INPUTS ==>
            var frame: u32 := (boundary - (offset + |r|)) % U32;
            t.InputAnswer(A, frame).Err? || t.InputAnswer(B, frame).Err?)
    decreases MAX_DIAGNOSTIC_INPUTS + 1 - offset
  {
    hide Timeline.InputAnswer;
    if offset <= MAX_DIAGNOSTIC_INPUTS {
      DiagnosticInputsPrecede(t, boundary, offset + 1);
    }
  }

  ghost predicate DiagnosticPairAt(t: Timeline, boundary: u32, back: nat, pair: InputPair) {
    var frame: u32 := (boundary - back) % U32;
    t.InputAnswer(A, frame) == Ok(pair.a) && t.InputAnswer(B, frame) == Ok(pair.b)
  }

  /** Compare one remote hash with the session's own answer, if it has one. */
  ghost function Compared(t: Timeline, diagnostic: Option<Diagnostic>, remote: ConfirmedHash,
      seed: u64): Option<Diagnostic>
    requires |t.used| == |t.local|
  {
    var local := t.HashAnswer(remote.frame);
    if local.Err? || local.value == remote.hash then diagnostic
    else
      var state := t.StateAnswer(remote.frame);
      if state.Err? then diagnostic
      else Tracked(diagnostic, HashObservation(remote.frame, local.value, true), HashObservation(remote.frame,
        remote.hash, true),
                   DiagnosticInputsFrom(t, remote.frame, 1), state.value, seed)
  }

  ghost function ComparedAll(t: Timeline, diagnostic: Option<Diagnostic>, hashes: seq<ConfirmedHash>,
      seed: u64): Option<Diagnostic>
    requires |t.used| == |t.local|
    decreases |hashes|
  {
    if hashes == [] then diagnostic
    else ComparedAll(t, Compared(t, diagnostic, hashes[0], seed), hashes[1..], seed)
  }

  /** What an accepted packet does to its receiver, and the error it returns. */
  ghost function Opened(e: Endpoint, packet: Packet, seed: u64): (Endpoint, Option<ErrorCode>)
    requires e.session.Valid()
  {
    var (t, error) := IngestedAll(e.session, packet.inputs);
    IngestedAllIsValid(e.session, packet.inputs);
    if error.Some? then (e.(session := t), error)
    else
      FlushedIsValid(t);
      (e.(session := t.Flushed(), diagnostic := ComparedAll(t.Flushed(), e.diagnostic, packet.hashes, seed)), None)
  }

  /** What a delivered packet with logical sequence `number` does to its receiver, and the error it returns. */
  ghost function Processed(e: Endpoint, packet: Packet, number: int, seed: u64): (Endpoint, Option<ErrorCode>)
    requires e.session.Valid()
  {
    var seen := e.(window := Observed(e.window, number));
    if !Accepted(Judged(e.window, number)) then (seen, None) else Opened(seen, packet, seed)
  }

  // ---- make_packet always encodes ----

  lemma {:induction false} HashesBehindAscend(t: Timeline, offset: nat)
    requires |t.used| == |t.local| && offset <= MAX_CONFIRMED_HASHES
    ensures var r := HashesBehind(t, offset);
      && |r| <= MAX_CONFIRMED_HASHES - offset
      && (forall i :: 0 <= i < |r| ==> r[i].frame == Tag(t.confirmed - offset - |r| + 1 + i)
                                       && t.HashAnswer(r[i].frame) == Ok(r[i].hash))
    decreases MAX_CONFIRMED_HASHES - offset
  {
    hide Timeline.HashAnswer, Tag;
    if offset < MAX_CONFIRMED_HASHES {
      HashesBehindAscend(t, offset + 1);
    }
  }

  /** A packet built from a valid session and its own inputs encodes, and decodes back to itself. */
  lemma MadePacketEncodes(t: Timeline, history: seq<InputFrame>, scenario: u64, sequence: u32)
    requires |t.used| == |t.local| && history != []
    requires OwnInputs(history, t.config.local) && KnownButtons(history)
    ensures var p := MadePacket(t, history, scenario, sequence);
      Encodable(p) && Decoded(Encoded(p).value) == Ok(p)
  {
    hide Timeline.HashAnswer, OrderedHashes, HashesBehind, Body, Decoded, Encoded;
    var p := MadePacket(t, history, scenario, sequence);
    HashesAreOrdered(t);
    DecodeOfEncode(p);
  }

  lemma HashesAreOrdered(t: Timeline)
    requires |t.used| == |t.local|
    ensures OrderedHashes(HashesBehind(t, 0)) && |HashesBehind(t, 0)| <= MAX_CONFIRMED_HASHES
  {
    hide Timeline.HashAnswer, FrameBefore, Tag, HashesBehind;
    var hashes := HashesBehind(t, 0);
    HashesBehindAscend(t, 0);
    forall i | 0 < i < |hashes| ensures FrameBefore(hashes[i - 1].frame, hashes[i].frame) {
      TagsRefineFrames(t.confirmed - |hashes| + i, t.confirmed - |hashes| + 1 + i);
    }
  }

  // ---- Honest deliveries ----

  /** The pairs a session answers just before a boundary, in order: as many as it can in a row, up to 32. */
  ghost predicate RecentPairs(t: Timeline, boundary: u32, inputs: seq<InputPair>) {
    && |inputs| <= 32
    && (forall i :: 0 <= i < |inputs| ==> DiagnosticPairAt(t, boundary, |inputs| - i, inputs[i]))
    && (|inputs| < 32 ==>
          var frame: u32 := (boundary - |inputs| - 1) % U32;
          t.InputAnswer(A, frame).Err? || t.InputAnswer(B, frame).Err?)
  }

  /** Both players and the shots in the air, as the diagnostic shows them. */
  ghost predicate Pictures(w: World, players: seq<PlayerSummary>, shots: nat) {
    && |players| == 2
    && (forall i :: 0 <= i < 2 ==>
          && players[i].id == w.players[i].id && players[i].x == w.players[i].x && players[i].y == w.players[i].y
          && players[i].hp == w.players[i].hp && players[i].score == w.players[i].score)
    && shots == |set i | 0 <= i < 64 && w.projectiles[i].active|
  }

  lemma ActiveSlotsStep(projectiles: seq<Projectile>, n: nat)
    requires n < |projectiles|
    ensures |ActiveSlots(projectiles, 0)| == 0
    ensures |ActiveSlots(projectiles, n + 1)| == |ActiveSlots(projectiles, n)| + if projectiles[n].active then 1 else 0
  {
  }

  lemma {:induction false} ActiveSlotsCount(projectiles: seq<Projectile>, n: nat)
    requires n < |projectiles|
    ensures |ActiveSlots(projectiles, n + 1)| == |set i | 0 <= i <= n && projectiles[i].active|
  {
    hide ActiveSlots;
    ActiveSlotsStep(projectiles, n);
    var all := set i | 0 <= i <= n && projectiles[i].active;
    if n == 0 {
      assert all == if projectiles[0].active then {0} else {};
    } else {
      ActiveSlotsCount(projectiles, n - 1);
      var before := set i | 0 <= i <= n - 1 && projectiles[i].active;
      if projectiles[n].active {
        assert all == before + {n};
      } else {
        assert all == before;
      }
    }
  }

  lemma RecordPictures(local: HashObservation, remote: HashObservation, inputs: seq<InputPair>, w: World, seed: u64)
    requires |inputs| <= 32
    ensures var d := Recorded(local, remote, inputs, w, seed);
      && d.recentInputs == inputs && Pictures(w, d.players, d.activeProjectiles) && d.scenarioSeed == seed
  {
    hide ActiveSlots;
    ActiveSlotsCount(w.projectiles, 63);
    assert (set i | 0 <= i <= 63 && w.projectiles[i].active) == set i | 0 <= i < 64 && w.projectiles[i].active;
  }

  /**
   * A record is only ever replaced by one with the session's own answer and a different remote hash, the confirmed
   * pairs just before the boundary, and the session's own state at it.
   */
  lemma ComparedRecords(t: Timeline, diagnostic: Option<Diagnostic>, remote: ConfirmedHash, seed: u64)
    requires |t.used| == |t.local|
    ensures var after := Compared(t, diagnostic, remote, seed);
      after != diagnostic ==>
        && after.Some? && t.HashAnswer(remote.frame) == Ok(after.value.localHash)
        && after.value.earliestFrame == remote.frame && after.value.remoteHash == remote.hash != after.value.localHash
        && RecentPairs(t, remote.frame, after.value.recentInputs) && after.value.scenarioSeed == seed
        && t.StateAnswer(remote.frame).Ok?
        && Pictures(t.StateAnswer(remote.frame).value, after.value.players, after.value.activeProjectiles)
  {
    hide Timeline.HashAnswer, Timeline.StateAnswer, Timeline.InputAnswer, FrameBefore, LastInputs, Summary, ActiveSlots,
         Recorded, Pictures, DiagnosticInputsFrom;
    DiagnosticInputsPrecede(t, remote.frame, 1);
    if t.HashAnswer(remote.frame).Ok? && t.StateAnswer(remote.frame).Ok? {
      var inputs, w := DiagnosticInputsFrom(t, remote.frame, 1), t.StateAnswer(remote.frame).value;
      var local := HashObservation(remote.frame, t.HashAnswer(remote.frame).value, true);
      RecordPictures(local, HashObservation(remote.frame, remote.hash, true), inputs, w, seed);
      RecordHeader(local, HashObservation(remote.frame, remote.hash, true), inputs, w, seed);
    }
  }

  lemma RecordHeader(local: HashObservation, remote: HashObservation, inputs: seq<InputPair>, w: World, seed: u64)
    ensures var d := Recorded(local, remote, inputs, w, seed);
      d.earliestFrame == local.frame && d.localHash == local.hash && d.remoteHash == remote.hash
  {
    hide LastInputs, Summary, ActiveSlots;
  }

  /** A hash that differs from the session's own answer leaves a record behind. */
  lemma {:induction false} DifferenceIsRecorded(t: Timeline, diagnostic: Option<Diagnostic>,
      hashes: seq<ConfirmedHash>, seed: u64, k: nat)
    requires |t.used| == |t.local| && k < |hashes|
    requires t.HashAnswer(hashes[k].frame).Ok? && t.HashAnswer(hashes[k].frame).value != hashes[k].hash
    ensures ComparedAll(t, diagnostic, hashes, seed).Some?
    decreases |hashes|
  {
    hide Compared;
    if k == 0 {
      DifferenceRecords(t, diagnostic, hashes[0], seed);
      RecordStays(t, Compared(t, diagnostic, hashes[0], seed), hashes[1..], seed);
    } else {
      DifferenceIsRecorded(t, Compared(t, diagnostic, hashes[0], seed), hashes[1..], seed, k - 1);
    }
  }

  lemma DifferenceRecords(t: Timeline, diagnostic: Option<Diagnostic>, remote: ConfirmedHash, seed: u64)
    requires |t.used| == |t.local|
    requires t.HashAnswer(remote.frame).Ok? && t.HashAnswer(remote.frame).value != remote.hash
    ensures Compared(t, diagnostic, remote, seed).Some?
  {
    hide Worlds, HashCanonical, Nearest, FrameBefore, LastInputs, Summary, ActiveSlots, DiagnosticInputsFrom;
  }

  lemma {:induction false} RecordStays(t: Timeline, diagnostic: Option<Diagnostic>, hashes: seq<ConfirmedHash>,
      seed: u64)
    requires |t.used| == |t.local| && diagnostic.Some?
    ensures ComparedAll(t, diagnostic, hashes, seed).Some?
    decreases |hashes|
  {
    hide Compared;
    if hashes != [] {
      ComparedRecords(t, diagnostic, hashes[0], seed);
      RecordStays(t, Compared(t, diagnostic, hashes[0], seed), hashes[1..], seed);
    }
  }

  ghost predicate TrueInputFor(t: Timeline, truth: Truth, input: InputFrame) {
    input == truth(t.Placed(input.frame))
  }

  lemma TruthFollowsClock(t: Timeline, u: Timeline, truth: Truth, inputs: seq<InputFrame>)
    requires inputs != [] && u.Now() == t.Now() && u.config == t.config
    requires forall i :: 0 <= i < |inputs| ==> TrueInputFor(t, truth, inputs[i])
    ensures inputs[0] == truth(t.Placed(inputs[0].frame))
    ensures forall i :: 0 <= i < |inputs[1..]| ==> TrueInputFor(u, truth, inputs[1..][i])
  {
    hide Nearest;
    assert TrueInputFor(t, truth, inputs[0]);
    forall i | 0 <= i < |inputs[1..]| ensures TrueInputFor(u, truth, inputs[1..][i]) {
      assert TrueInputFor(t, truth, inputs[i + 1]);
    }
  }

  lemma {:induction false} IngestedAllIsHonest(t: Timeline, truth: Truth, inputs: seq<InputFrame>)
    requires t.Valid() && Honest(t, truth)
    requires forall i :: 0 <= i < |inputs| ==> TrueInputFor(t, truth, inputs[i])
    ensures Honest(IngestedAll(t, inputs).0, truth)
    decreases |inputs|
  {
    hide Timeline.Valid, Timeline.Ingested, Honest, Nearest, TrueInputFor;
    if inputs != [] && t.IngestError(inputs[0]).None? {
      var u := t.Ingested(inputs[0]);
      IngestKeepsClock(t, inputs[0]);
      IngestedIsValid(t, inputs[0]);
      TruthFollowsClock(t, u, truth, inputs);
      IngestIsHonest(t, inputs[0], truth);
      IngestedAllIsHonest(u, truth, inputs[1..]);
    }
  }
}
