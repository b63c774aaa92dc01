/**
 * Two peers and a network that may lose, duplicate, delay and reorder packets without bound.
 * Whatever happens on the wire, a recorded desync is a real difference between the two simulations, so two peers of
 * one variant never accuse each other.
 */
module Protocol {
  import opened Core
  import opened Simulation
  import opened SimulationLaws
  import opened Canonical
  import opened Timelines
  import opened SessionLaws
  import opened SequenceWindows
  import opened Codec
  import opened Desyncs
  import opened Exchange

  /** The buttons each player presses in each frame: any function at all. */
  type Script = (int, PlayerId) -> u8

  datatype Setup = Setup(initial: World, variantA: Variant, variantB: Variant, script: Script, scenario: u64)
  {
    function Base(): int { initial.frame }

    function VariantOf(p: PlayerId): Variant { if p.A? then variantA else variantB }
  }

  function ScriptedInput(s: Setup, frame: int, player: PlayerId): InputFrame {
    InputFrame(Tag(frame), player, Tag(frame), s.script(frame, player))
  }

  function TruthFor(s: Setup, local: PlayerId): Truth { k => ScriptedInput(s, k, Other(local)) }

  /** The direct fold of one variant's simulation over the true input pairs. */
  ghost function PairFold(s: Setup, variant: Variant, n: nat): World {
    if n == 0 then s.initial
    else
      var frame := s.Base() + n - 1;
      Next(PairFold(s, variant, n - 1), s.script(frame, A), s.script(frame, B), variant)
  }

  datatype Peer = Peer(endpoint: Endpoint, history: seq<InputFrame>, nextNumber: int)

  datatype Letter = Letter(to: PlayerId, number: int, packet: Packet)

  datatype Net = Net(a: Peer, b: Peer, wire: set<Letter>)
  {
    function At(p: PlayerId): Peer { if p.A? then a else b }

    function With(p: PlayerId, peer: Peer): Net { if p.A? then this.(a := peer) else this.(b := peer) }
  }

  datatype Step =
    | Generate(p: PlayerId)                  // push the next local input to the history
    | Send(p: PlayerId)                      // put a packet on the wire; it is never taken off
    // any letter, any time, any number of times, taken or filtered out, whatever the window then remembers
    | Deliver(p: PlayerId, letter: Letter, taken: bool, window: Window)
    | Advance(p: PlayerId)
    | Flush(p: PlayerId)

  // ---- What every reachable state satisfies ----

  ghost predicate PeerIsGood(s: Setup, p: PlayerId, peer: Peer) {
    var t := peer.endpoint.session;
    && t.Valid() && Honest(t, TruthFor(s, p))
    && t.config.local == p && t.config.initial == s.initial && t.config.variant == s.VariantOf(p)
    && (forall i :: 0 <= i < |t.local| ==> t.local[i] == ScriptedInput(s, s.Base() + i, p))
    && (forall i :: 0 <= i < |peer.history| ==> peer.history[i] == ScriptedInput(s, s.Base() + i, p))
    && |peer.history| < HALF
    && RealDesync(s, p, peer.endpoint.diagnostic)
  }

  /**
   * What is on record at a peer is a boundary at which the two simulations differ, with the hash of each, the scripted
   * pairs just before it, the players and shots of the peer's own simulation there, and the seed of the scenario.
   */
  ghost predicate RealDesync(s: Setup, p: PlayerId, diagnostic: Option<Diagnostic>) {
    diagnostic.Some? ==>
      var d := diagnostic.value;
      var n := FrameFrom(s.Base(), d.earliestFrame) - s.Base();
      && d.localHash == HashCanonical(PairFold(s, s.VariantOf(p), n))
      && d.remoteHash == HashCanonical(PairFold(s, s.VariantOf(Other(p)), n))
      && d.localHash != d.remoteHash
      && ScriptedBefore(s, n, d.recentInputs) && d.scenarioSeed == s.scenario
      && Pictures(PairFold(s, s.VariantOf(p), n), d.players, d.activeProjectiles)
  }

  /** The scripted pairs of the frames just before boundary `n`, in order and at most 32. */
  ghost predicate ScriptedBefore(s: Setup, n: int, inputs: seq<InputPair>) {
    && |inputs| <= 32 && |inputs| <= n
    && forall i :: 0 <= i < |inputs| ==>
         var frame := s.Base() + n - |inputs| + i;
         inputs[i] == InputPair(ScriptedInput(s, frame, A), ScriptedInput(s, frame, B))
  }

  /** The unbounded frame in [base, base + 2^32) that carries a tag. */
  function FrameFrom(base: int, tag: u32): (r: int)
    ensures base <= r < base + U32
  {
    base + (tag - base) % U32
  }

  ghost predicate GoodInput(s: Setup, sender: PlayerId, input: InputFrame) {
    var frame := FrameFrom(s.Base(), input.frame);
    frame < s.Base() + HALF && input == ScriptedInput(s, frame, sender)
  }

  /** The hash is the true fold's under the sender's rules. */
  ghost predicate GoodHash(s: Setup, sender: PlayerId, hash: ConfirmedHash) {
    var frame := FrameFrom(s.Base(), hash.frame);
    frame < s.Base() + HALF && hash.hash == HashCanonical(PairFold(s, s.VariantOf(sender), frame - s.Base()))
  }

  /** The header names its sender, number and scenario; inputs and hashes are consecutive, up to the confirmed frame. */
  ghost predicate Labelled(s: Setup, letter: Letter) {
    var p := letter.packet;
    && p.version == 1 && p.kind == 2 && p.hello.None? && p.sender == Other(letter.to)
    && p.sequence == Tag(letter.number) && p.scenario == s.scenario && p.ack == p.confirmedFrame
    && |p.inputs| <= 32 && |p.hashes| <= 32
    && (forall i :: 0 < i < |p.inputs| ==> p.inputs[i].frame == NextFrame(p.inputs[i - 1].frame))
    && (forall i :: 0 < i < |p.hashes| ==> p.hashes[i].frame == NextFrame(p.hashes[i - 1].frame))
    && (p.hashes != [] ==> p.hashes[|p.hashes| - 1].frame == p.confirmedFrame)
  }

  ghost predicate GoodLetter(s: Setup, letter: Letter) {
    && Labelled(s, letter)
    && (forall i :: 0 <= i < |letter.packet.inputs| ==> GoodInput(s, Other(letter.to), letter.packet.inputs[i]))
    && (forall i :: 0 <= i < |letter.packet.hashes| ==> GoodHash(s, Other(letter.to), letter.packet.hashes[i]))
  }

  ghost predicate Good(s: Setup, net: Net) {
    PeerIsGood(s, A, net.a) && PeerIsGood(s, B, net.b) && forall letter :: letter in net.wire ==> GoodLetter(s, letter)
  }

  lemma FrameFromTag(base: int, frame: int)
    requires base <= frame < base + U32
    ensures FrameFrom(base, Tag(frame)) == frame
  {
    TagDifference(base, frame);
    SmallMod(frame - base);
  }

  lemma TagOfFrameFrom(base: int, tag: u32)
    ensures Tag(FrameFrom(base, tag)) == tag && base <= FrameFrom(base, tag) < base + U32
  {
    var q := (tag - base) / U32;
    assert tag - base == q * U32 + (tag - base) % U32;
    assert FrameFrom(base, tag) == tag - q * U32;
    TagDifference(tag, FrameFrom(base, tag));
    assert (FrameFrom(base, tag) - tag) % U32 == (-q * U32) % U32 == 0;
  }

  // ---- Hashes on the wire are the true fold's ----

  lemma {:induction false} TrueWorldIsPairFold(s: Setup, p: PlayerId, t: Timeline, n: nat)
    requires |t.used| == |t.local| && n <= |t.local|
    requires t.config.local == p && t.config.initial == s.initial
    requires forall i :: 0 <= i < |t.local| ==> t.local[i] == ScriptedInput(s, s.Base() + i, p)
    ensures TrueWorld(t, TruthFor(s, p), s.Base() + n) == PairFold(s, t.config.variant, n)
  {
    hide Next, Worlds;
    var truths := TrueInputs(TruthFor(s, p), s.Base(), n);
    if n == 0 {
      WorldsOfNothing(t.config);
    } else {
      TrueWorldIsPairFold(s, p, t, n - 1);
      WorldsStep(t.config, t.local[..n], truths, n - 1);
      WorldsOfPrefix(t.config, t.local[..n], truths, n - 1);
      assert t.local[..n][..n - 1] == t.local[..n - 1];
      assert truths[..n - 1] == TrueInputs(TruthFor(s, p), s.Base(), n - 1);
    }
  }

  lemma WorldsOfNothing(c: Config)
    ensures Worlds(c, [], []) == [c.initial]
  {
  }

  lemma AnsweredHashIsGood(s: Setup, p: PlayerId, peer: Peer, hash: ConfirmedHash)
    requires PeerIsGood(s, p, peer) && peer.endpoint.session.HashAnswer(hash.frame) == Ok(hash.hash)
    ensures GoodHash(s, p, hash)
  {
    hide Timeline.HashAnswer, Timeline.StateAnswer, TrueWorld, HashCanonical, PairFold, Sound, Honest;
    var t := peer.endpoint.session;
    var frame := Nearest(t.confirmed, hash.frame);
    ConfirmedAnswersAreTrue(t, TruthFor(s, p), hash.frame, A);
    NearestIsNear(t.confirmed, hash.frame);
    TrueWorldIsPairFold(s, p, t, frame - s.Base());
    FrameFromTag(s.Base(), frame);
  }

  lemma HashesAreConsecutive(t: Timeline)
    requires |t.used| == |t.local|
    ensures var r := HashesBehind(t, 0);
      && |r| <= 32 && (r != [] ==> r[|r| - 1].frame == Tag(t.confirmed))
      && forall i :: 0 < i < |r| ==> r[i].frame == NextFrame(r[i - 1].frame)
  {
    hide Timeline.HashAnswer, Tag, NextFrame, HashesBehind;
    HashesBehindAscend(t, 0);
    var r := HashesBehind(t, 0);
    forall i | 0 < i < |r| ensures r[i].frame == NextFrame(r[i - 1].frame) {
      NextTag(t.confirmed - |r| + i);
    }
  }

  lemma WindowIsConsecutive(s: Setup, p: PlayerId, history: seq<InputFrame>)
    requires forall i :: 0 <= i < |history| ==> history[i] == ScriptedInput(s, s.Base() + i, p)
    ensures var r := WindowFrom(history);
      |r| <= 32 && forall i :: 0 < i < |r| ==> r[i].frame == NextFrame(r[i - 1].frame)
  {
    hide Tag, NextFrame;
    var r := WindowFrom(history);
    forall i | 0 < i < |r| ensures r[i].frame == NextFrame(r[i - 1].frame) {
      var k := |history| - |r| + i;
      assert r[i] == history[k] && r[i - 1] == history[k - 1];
      NextTag(s.Base() + (k - 1));
      assert s.Base() + (k - 1) + 1 == s.Base() + k;
    }
  }

  lemma MadePacketIsLabelled(s: Setup, p: PlayerId, peer: Peer)
    requires PeerIsGood(s, p, peer)
    ensures |peer.endpoint.session.used| == |peer.endpoint.session.local|
    ensures Labelled(s, Letter(Other(p), peer.nextNumber, MadePacket(peer.endpoint.session, peer.history, s.scenario,
      Tag(peer.nextNumber))))
  {
    hide Timeline.Valid, Honest, Tag, NextFrame, HashesBehind, WindowFrom;
    SessionIsValid(s, p, peer);
    HashesAreConsecutive(peer.endpoint.session);
    WindowIsConsecutive(s, p, peer.history);
  }

  lemma SentLetterIsGood(s: Setup, p: PlayerId, peer: Peer)
    requires PeerIsGood(s, p, peer)
    ensures GoodLetter(s, Letter(Other(p), peer.nextNumber, MadePacket(peer.endpoint.session, peer.history, s.scenario,
      Tag(peer.nextNumber))))
  {
    hide Timeline.HashAnswer, GoodHash, Timeline.Valid, Honest, Tag, Labelled;
    MadePacketIsLabelled(s, p, peer);
    SessionIsValid(s, p, peer);
    var t := peer.endpoint.session;
    var packet := MadePacket(t, peer.history, s.scenario, Tag(peer.nextNumber));
    HashesBehindAscend(t, 0);
    forall i | 0 <= i < |packet.hashes| ensures GoodHash(s, p, packet.hashes[i]) {
      AnsweredHashIsGood(s, p, peer, packet.hashes[i]);
    }
    forall i | 0 <= i < |packet.inputs| ensures GoodInput(s, p, packet.inputs[i]) {
      FrameFromTag(s.Base(), s.Base() + |peer.history| - |packet.inputs| + i);
    }
  }

  lemma SessionIsValid(s: Setup, p: PlayerId, peer: Peer)
    requires PeerIsGood(s, p, peer)
    ensures peer.endpoint.session.Valid() && Honest(peer.endpoint.session, TruthFor(s, p))
    ensures |peer.endpoint.session.used| == |peer.endpoint.session.local| && peer.endpoint.session.Base() == s.Base()
    ensures s.Base() <= peer.endpoint.session.Now() < s.Base() + HALF
  {
    hide Sound;
  }

  /** What is true of the whole exchange is true for this session. */
  lemma LetterIsTrue(s: Setup, p: PlayerId, peer: Peer, packet: Packet, t: Timeline)
    requires PeerIsGood(s, p, peer) && t == peer.endpoint.session
    requires forall i :: 0 <= i < |packet.inputs| ==> GoodInput(s, Other(p), packet.inputs[i])
    ensures forall i :: 0 <= i < |packet.inputs| ==> TrueInputFor(t, TruthFor(s, p), packet.inputs[i])
  {
    hide Timeline.Valid, Honest, Nearest;
    SessionIsValid(s, p, peer);
    forall i | 0 <= i < |packet.inputs| ensures TrueInputFor(t, TruthFor(s, p), packet.inputs[i]) {
      assert GoodInput(s, Other(p), packet.inputs[i]);
      var frame := FrameFrom(s.Base(), packet.inputs[i].frame);
      TagOfFrameFrom(s.Base(), packet.inputs[i].frame);
      PlacedFrame(t, frame);
    }
  }

  /** The session is `p`'s, honest, and simulates the script. */
  ghost predicate Scripting(s: Setup, p: PlayerId, t: Timeline) {
    && t.Valid() && Honest(t, TruthFor(s, p))
    && t.config.local == p && t.config.initial == s.initial && t.config.variant == s.VariantOf(p)
    && (forall i :: 0 <= i < |t.local| ==> t.local[i] == ScriptedInput(s, s.Base() + i, p))
  }

  lemma AnswerIsTheFold(s: Setup, p: PlayerId, t: Timeline, tag: u32)
    requires Scripting(s, p, t)
    ensures |t.used| == |t.local|
    ensures t.HashAnswer(tag).Ok? ==>
        t.HashAnswer(tag).value == HashCanonical(PairFold(s, s.VariantOf(p), FrameFrom(s.Base(), tag) - s.Base()))
  {
    hide Timeline.HashAnswer, Timeline.StateAnswer, TrueWorld, HashCanonical, PairFold, Sound, Nearest, Tag;
    ConfirmedAnswersAreTrue(t, TruthFor(s, p), tag, A);
    if t.HashAnswer(tag).Ok? {
      var frame := Nearest(t.confirmed, tag);
      NearestIsNear(t.confirmed, tag);
      FrameFromTag(s.Base(), frame);
      TrueWorldIsPairFold(s, p, t, frame - s.Base());
    }
  }

  /** A confirmed pair a session answers is the scripted one. */
  lemma PairIsScripted(s: Setup, p: PlayerId, t: Timeline, frame: int, pair: InputPair)
    requires Scripting(s, p, t) && t.confirmed - HALF < frame <= t.confirmed
    requires t.InputAnswer(A, Tag(frame)) == Ok(pair.a) && t.InputAnswer(B, Tag(frame)) == Ok(pair.b)
    ensures s.Base() <= frame && pair == InputPair(ScriptedInput(s, frame, A), ScriptedInput(s, frame, B))
  {
    hide Timeline.InputAnswer, Timeline.HashAnswer, Timeline.StateAnswer, TrueWorld, HashCanonical, Nearest, Sound,
         Honest, Tag;
    TagsRefineFrames(frame, t.confirmed);
    ConfirmedAnswersAreTrue(t, TruthFor(s, p), Tag(frame), A);
    ConfirmedAnswersAreTrue(t, TruthFor(s, p), Tag(frame), B);
  }

  lemma PairBackIsScripted(s: Setup, p: PlayerId, t: Timeline, frame: int, back: nat, pair: InputPair)
    requires Scripting(s, p, t) && back <= 32 && t.confirmed - 256 < frame <= t.confirmed
    requires DiagnosticPairAt(t, Tag(frame), back, pair)
    ensures s.Base() <= frame - back
      && pair == InputPair(ScriptedInput(s, frame - back, A), ScriptedInput(s, frame - back, B))
  {
    hide Timeline.InputAnswer, Scripting;
    TagDifference(back, frame);
    PairIsScripted(s, p, t, frame - back, pair);
  }

  lemma RecentIsScripted(s: Setup, p: PlayerId, t: Timeline, boundary: u32, inputs: seq<InputPair>)
    requires Scripting(s, p, t) && RecentPairs(t, boundary, inputs) && t.HashAnswer(boundary).Ok?
    ensures ScriptedBefore(s, FrameFrom(s.Base(), boundary) - s.Base(), inputs)
  {
    hide Timeline.InputAnswer, Timeline.HashAnswer, Scripting, Tag, Nearest, FrameFrom, DiagnosticPairAt, ScriptedInput;
    var frame := Nearest(t.confirmed, boundary);
    AnsweredFrame(s, p, t, boundary);
    var n := frame - s.Base();
    if inputs != [] {
      assert DiagnosticPairAt(t, boundary, |inputs| - 0, inputs[0]);
      PairBackIsScripted(s, p, t, frame, |inputs|, inputs[0]);
    }
    forall i | 0 <= i < |inputs|
      ensures var k := s.Base() + n - |inputs| + i;
        s.Base() <= k && inputs[i] == InputPair(ScriptedInput(s, k, A), ScriptedInput(s, k, B))
    {
      var back := |inputs| - i;
      assert s.Base() + n - |inputs| + i == frame - back;
      assert DiagnosticPairAt(t, boundary, back, inputs[i]);
      PairBackIsScripted(s, p, t, frame, back, inputs[i]);
    }
  }

  lemma AnsweredFrame(s: Setup, p: PlayerId, t: Timeline, boundary: u32)
    requires Scripting(s, p, t) && t.HashAnswer(boundary).Ok?
    ensures var frame := Nearest(t.confirmed, boundary);
      && Tag(frame) == boundary && frame == FrameFrom(s.Base(), boundary)
      && s.Base() <= frame <= t.confirmed < frame + 256
  {
    hide HashCanonical, Sound, Nearest, Tag, Honest;
    NearestIsNear(t.confirmed, boundary);
    FrameFromTag(s.Base(), Nearest(t.confirmed, boundary));
  }

  lemma AnsweredState(s: Setup, p: PlayerId, t: Timeline, boundary: u32)
    requires Scripting(s, p, t) && t.HashAnswer(boundary).Ok? && t.StateAnswer(boundary).Ok?
    ensures t.StateAnswer(boundary).value
         == PairFold(s, s.VariantOf(p), FrameFrom(s.Base(), boundary) - s.Base())
  {
    hide Timeline.HashAnswer, Timeline.StateAnswer, TrueWorld, HashCanonical, PairFold, Sound, Nearest, Tag;
    AnsweredFrame(s, p, t, boundary);
    ConfirmedAnswersAreTrue(t, TruthFor(s, p), boundary, A);
    TrueWorldIsPairFold(s, p, t, Nearest(t.confirmed, boundary) - s.Base());
  }

  lemma ComparedIsReal(s: Setup, p: PlayerId, t: Timeline, diagnostic: Option<Diagnostic>, remote: ConfirmedHash)
    requires Scripting(s, p, t) && GoodHash(s, Other(p), remote) && RealDesync(s, p, diagnostic)
    ensures |t.used| == |t.local| && RealDesync(s, p, Compared(t, diagnostic, remote, s.scenario))
  {
    hide Compared, Scripting, Timeline.HashAnswer, Timeline.StateAnswer, HashCanonical, PairFold, FrameFrom, Pictures,
         RecentPairs, ScriptedBefore;
    AnswerIsTheFold(s, p, t, remote.frame);
    ComparedRecords(t, diagnostic, remote, s.scenario);
    var after := Compared(t, diagnostic, remote, s.scenario);
    if after != diagnostic {
      RecentIsScripted(s, p, t, remote.frame, after.value.recentInputs);
      AnsweredState(s, p, t, remote.frame);
    }
  }

  lemma {:induction false} ComparingStaysReal(s: Setup, p: PlayerId, t: Timeline, diagnostic: Option<Diagnostic>,
      hashes: seq<ConfirmedHash>)
    requires Scripting(s, p, t) && RealDesync(s, p, diagnostic)
    requires forall i :: 0 <= i < |hashes| ==> GoodHash(s, Other(p), hashes[i])
    ensures |t.used| == |t.local| && RealDesync(s, p, ComparedAll(t, diagnostic, hashes, s.scenario))
    decreases |hashes|
  {
    hide Compared, Scripting, RealDesync, GoodHash;
    AnswerIsTheFold(s, p, t, 0);
    if hashes != [] {
      ComparedIsReal(s, p, t, diagnostic, hashes[0]);
      ComparingStaysReal(s, p, t, Compared(t, diagnostic, hashes[0], s.scenario), hashes[1..]);
    }
  }

  // ---- Steps ----

  ghost predicate Enabled(s: Setup, net: Net, step: Step) {
    match step
    case Generate(p) => |net.At(p).history| + 1 < HALF
    case Send(p) => true
    case Deliver(p, letter, _, _) => letter in net.wire && letter.to == p
    case Advance(p) => net.At(p).endpoint.session.HasRoom()
    case Flush(p) => true
  }

  ghost function Delivered(peer: Peer, letter: Letter, seed: u64): Peer
    requires peer.endpoint.session.Valid()
  {
    peer.(endpoint := Processed(peer.endpoint, letter.packet, letter.number, seed).0)
  }

  ghost predicate StepTo(s: Setup, net: Net, step: Step, net': Net) {
    && Enabled(s, net, step)
    && var peer := net.At(step.p);
       var t := peer.endpoint.session;
       match step
       case Generate(p) =>
         net' == net.With(p, peer.(history := peer.history + [ScriptedInput(s, s.Base() + |peer.history|, p)]))
       case Send(p) =>
         && |t.used| == |t.local|
         && net' == net.With(p, peer.(nextNumber := peer.nextNumber + 1))
                      .(wire := net.wire + {Letter(Other(p), peer.nextNumber,
                                                   MadePacket(t, peer.history, s.scenario, Tag(peer.nextNumber)))})
       case Deliver(p, letter, taken, window) =>
         && t.Valid()
         && var seen := peer.endpoint.(window := window);
            net' == net.With(p, peer.(endpoint := if taken then Opened(seen, letter.packet, s.scenario).0 else seen))
       case Advance(p) =>
         && t.Valid()
         && net' == net.With(p, peer.(endpoint := peer.endpoint.(session := t.Advanced(ScriptedInput(s, t.Now(), p)))))
       case Flush(p) =>
         && t.Valid()
         && net' == net.With(p, peer.(endpoint := peer.endpoint.(session := t.Flushed())))
  }

  lemma OpeningIsGood(s: Setup, p: PlayerId, peer: Peer, letter: Letter, window: Window)
    requires PeerIsGood(s, p, peer) && GoodLetter(s, letter) && letter.to == p
    ensures peer.endpoint.session.Valid()
    ensures PeerIsGood(s, p, peer.(endpoint := peer.endpoint.(window := window)))
    ensures PeerIsGood(s, p, peer.(endpoint := Opened(peer.endpoint.(window := window), letter.packet, s.scenario).0))
  {
    hide Timeline.Valid, Honest, Sound, GoodInput, GoodHash, TrueInputFor, Timeline.Flushed, IngestedAll, ComparedAll,
         RealDesync;
    SessionIsValid(s, p, peer);
    var t := peer.endpoint.session;
    LetterIsTrue(s, p, peer, letter.packet, t);
    var u := IngestedAll(t, letter.packet.inputs).0;
    IngestedAllIsValid(t, letter.packet.inputs);
    IngestedAllIsHonest(t, TruthFor(s, p), letter.packet.inputs);
    FlushIsHonest(u, TruthFor(s, p));
    FlushedIsValid(u);
    FlushKeepsConfig(u);
    ComparingStaysReal(s, p, u.Flushed(), peer.endpoint.diagnostic, letter.packet.hashes);
  }

  lemma DeliveryIsGood(s: Setup, p: PlayerId, peer: Peer, letter: Letter)
    requires PeerIsGood(s, p, peer) && GoodLetter(s, letter) && letter.to == p
    ensures peer.endpoint.session.Valid() && PeerIsGood(s, p, Delivered(peer, letter, s.scenario))
  {
    hide PeerIsGood, GoodLetter, Opened, Timeline.Valid, Judged, Observed;
    OpeningIsGood(s, p, peer, letter, Observed(peer.endpoint.window, letter.number));
  }

  lemma FlushKeepsConfig(t: Timeline)
    requires t.Valid()
    ensures t.Flushed().config == t.config && t.Flushed().local == t.local
  {
    hide Sound;
  }

  lemma AdvanceAppends(t: Timeline, input: InputFrame)
    requires t.Valid() && t.Accepts(input)
    ensures t.Advanced(input).config == t.config && t.Advanced(input).local == t.local + [input]
  {
    hide Sound;
    FlushKeepsConfig(t);
  }

  lemma AdvanceIsGood(s: Setup, p: PlayerId, peer: Peer)
    requires PeerIsGood(s, p, peer) && peer.endpoint.session.HasRoom()
    ensures var t := peer.endpoint.session;
      PeerIsGood(s, p, peer.(endpoint := peer.endpoint.(session := t.Advanced(ScriptedInput(s, t.Now(), p)))))
  {
    hide Timeline.Valid, Honest, Sound, Timeline.Advanced, Timeline.HasRoom;
    SessionIsValid(s, p, peer);
    var t := peer.endpoint.session;
    var input := ScriptedInput(s, t.Now(), p);
    AdvanceIsHonest(t, input, TruthFor(s, p));
    AdvancedIsValid(t, input);
    AdvanceAppends(t, input);
  }

  lemma FlushIsGood(s: Setup, p: PlayerId, peer: Peer)
    requires PeerIsGood(s, p, peer)
    ensures peer.endpoint.session.Valid()
    ensures PeerIsGood(s, p, peer.(endpoint := peer.endpoint.(session := peer.endpoint.session.Flushed())))
  {
    hide Timeline.Valid, Honest, Sound, Timeline.Flushed;
    SessionIsValid(s, p, peer);
    FlushIsHonest(peer.endpoint.session, TruthFor(s, p));
    FlushedIsValid(peer.endpoint.session);
    FlushKeepsConfig(peer.endpoint.session);
  }

  lemma GenerateIsGood(s: Setup, p: PlayerId, peer: Peer)
    requires PeerIsGood(s, p, peer) && |peer.history| + 1 < HALF
    ensures PeerIsGood(s, p, peer.(history := peer.history + [ScriptedInput(s, s.Base() + |peer.history|, p)]))
  {
    hide Timeline.Valid, Honest;
  }

  /** Every step keeps the invariant. */
  lemma StepIsGood(s: Setup, net: Net, step: Step, net': Net)
    requires Good(s, net) && StepTo(s, net, step, net')
    ensures Good(s, net')
  {
    hide PeerIsGood, GoodLetter, Opened, Timeline.Advanced, Timeline.Flushed, MadePacket, Timeline.Valid;
    var peer := net.At(step.p);
    match step
    case Generate(p) => GenerateIsGood(s, p, peer);
    case Send(p) =>
      SentLetterIsGood(s, p, peer);
      SendIsGood(s, p, peer);
    case Deliver(p, letter, _, window) => OpeningIsGood(s, p, peer, letter, window);
    case Advance(p) => AdvanceIsGood(s, p, peer);
    case Flush(p) => FlushIsGood(s, p, peer);
  }

  lemma SendIsGood(s: Setup, p: PlayerId, peer: Peer)
    requires PeerIsGood(s, p, peer)
    ensures PeerIsGood(s, p, peer.(nextNumber := peer.nextNumber + 1))
  {
    hide Timeline.Valid, Honest;
  }

  ghost predicate Begins(s: Setup, net: Net) {
    && Sound(s.initial)
    && net.wire == {}
    && net.a.endpoint.session == Start(net.a.endpoint.session.config)
    && net.b.endpoint.session == Start(net.b.endpoint.session.config)
    && net.a.endpoint.session.config.(maxRollback := 0) == Config(A, s.initial, 0, s.variantA)
    && net.b.endpoint.session.config.(maxRollback := 0) == Config(B, s.initial, 0, s.variantB)
    && net.a.history == net.b.history == []
    && net.a.endpoint.diagnostic == net.b.endpoint.diagnostic == None
  }

  lemma BeginningIsGood(s: Setup, net: Net)
    requires Begins(s, net)
    ensures Good(s, net)
  {
    hide Sound, Timeline.Valid;
    StartIsValid(net.a.endpoint.session.config);
    StartIsValid(net.b.endpoint.session.config);
    StartIsHonest(net.a.endpoint.session.config, TruthFor(s, A));
    StartIsHonest(net.b.endpoint.session.config, TruthFor(s, B));
  }

  ghost predicate Exchanged(s: Setup, nets: seq<Net>, steps: seq<Step>) {
    && |nets| == |steps| + 1
    && Begins(s, nets[0])
    && (forall i :: 0 <= i < |steps| ==> StepTo(s, nets[i], steps[i], nets[i + 1]))
  }

  lemma {:induction false} ExchangesAreGood(s: Setup, nets: seq<Net>, steps: seq<Step>, i: nat)
    requires Exchanged(s, nets, steps) && i < |nets|
    ensures Good(s, nets[i])
  {
    hide Begins, Good, StepTo;
    if i == 0 {
      BeginningIsGood(s, nets[0]);
    } else {
      ExchangesAreGood(s, nets, steps, i - 1);
      StepIsGood(s, nets[i - 1], steps[i - 1], nets[i]);
    }
  }

  /**
   * In every run of two peers over an arbitrarily lossy, duplicating and reordering network, whatever a tracker holds
   * is a boundary at which the two peers' simulations really differ, with the true hash of each.
   */
  lemma DesyncsAreReal(s: Setup, nets: seq<Net>, steps: seq<Step>, i: nat)
    requires Exchanged(s, nets, steps) && i < |nets|
    ensures RealDesync(s, A, nets[i].a.endpoint.diagnostic) && RealDesync(s, B, nets[i].b.endpoint.diagnostic)
  {
    hide Exchanged, Timeline.Valid, Honest, RealDesync;
    ExchangesAreGood(s, nets, steps, i);
  }

  /**
   * In every such run of two same-variant peers no tracker ever holds a diagnostic, and every hash in flight agrees
   * with every answer its receiver could give.
   */
  lemma NoFalseDesync(s: Setup, nets: seq<Net>, steps: seq<Step>, i: nat, letter: Letter, k: nat)
    requires Exchanged(s, nets, steps) && i < |nets| && s.variantA == s.variantB
    ensures nets[i].a.endpoint.diagnostic.None? && nets[i].b.endpoint.diagnostic.None?
    ensures nets[i].a.endpoint.session.Valid() && nets[i].b.endpoint.session.Valid()
    ensures letter in nets[i].wire && k < |letter.packet.hashes| ==>
        var hash := letter.packet.hashes[k];
        var answer := nets[i].At(letter.to).endpoint.session.HashAnswer(hash.frame);
        var n := FrameFrom(s.Base(), hash.frame) - s.Base();
        && hash.hash == HashCanonical(PairFold(s, s.variantA, n))
        && (answer.Ok? ==> answer.value == hash.hash)
  {
    hide Exchanged, Timeline.Valid, Timeline.HashAnswer, Honest, HashCanonical, PairFold;
    ExchangesAreGood(s, nets, steps, i);
    SessionIsValid(s, A, nets[i].a);
    SessionIsValid(s, B, nets[i].b);
    if letter in nets[i].wire && k < |letter.packet.hashes| {
      assert GoodLetter(s, letter);
      AnswerIsTheFold(s, letter.to, nets[i].At(letter.to).endpoint.session, letter.packet.hashes[k].frame);
    }
  }

  /** The hashes of the two peers' simulations differ at the boundary with this tag. */
  ghost predicate FoldsDiffer(s: Setup, tag: u32) {
    var n := FrameFrom(s.Base(), tag) - s.Base();
    HashCanonical(PairFold(s, s.variantA, n)) != HashCanonical(PairFold(s, s.variantB, n))
  }

  /**
   * Detection: when a packet that is not filtered out carries a hash for a boundary its receiver can then answer,
   * and the two simulations differ there, the receiver's tracker holds a diagnostic.
   */
  lemma DifferenceIsDetected(s: Setup, p: PlayerId, peer: Peer, letter: Letter, k: nat)
    requires PeerIsGood(s, p, peer) && GoodLetter(s, letter) && letter.to == p && k < |letter.packet.hashes|
    ensures peer.endpoint.session.Valid()
    ensures var (after, error) := Opened(peer.endpoint, letter.packet, s.scenario);
      var tag := letter.packet.hashes[k].frame;
      && |after.session.used| == |after.session.local|
      && (error.None? && after.session.HashAnswer(tag).Ok? && FoldsDiffer(s, tag) ==> after.diagnostic.Some?)
  {
    hide Timeline.Valid, Timeline.HashAnswer, Honest, HashCanonical, PairFold, IngestedAll, ComparedAll,
         Timeline.Flushed, GoodInput, RealDesync, FrameFrom;
    OpeningIsGood(s, p, peer, letter, peer.endpoint.window);
    assert peer.endpoint.(window := peer.endpoint.window) == peer.endpoint;
    var (after, error) := Opened(peer.endpoint, letter.packet, s.scenario);
    var hash := letter.packet.hashes[k];
    assert GoodHash(s, Other(p), hash);
    AnswerIsTheFold(s, p, after.session, hash.frame);
    if error.None? && after.session.HashAnswer(hash.frame).Ok?
       && after.session.HashAnswer(hash.frame).value != hash.hash {
      DifferenceIsRecorded(after.session, peer.endpoint.diagnostic, letter.packet.hashes, s.scenario, k);
    }
  }

  /** A boundary confirmed by both peers is the fold at both: the same world when they share a variant. */
  lemma ConfirmedPeersAgree(s: Setup, nets: seq<Net>, steps: seq<Step>, i: nat, frame: int)
    requires Exchanged(s, nets, steps) && i < |nets|
    ensures var a, b := nets[i].a.endpoint.session, nets[i].b.endpoint.session;
      s.Base() <= frame <= a.confirmed && s.Base() <= frame <= b.confirmed ==>
          && IsBoundary(a, frame, PairFold(s, s.variantA, frame - s.Base()))
          && IsBoundary(b, frame, PairFold(s, s.variantB, frame - s.Base()))
  {
    hide Exchanged, Timeline.Valid, Honest, PairFold, Worlds, TrueWorld;
    ExchangesAreGood(s, nets, steps, i);
    SessionIsValid(s, A, nets[i].a);
    SessionIsValid(s, B, nets[i].b);
    var a, b := nets[i].a.endpoint.session, nets[i].b.endpoint.session;
    Boundaries(a);
    Boundaries(b);
    if s.Base() <= frame <= a.confirmed && s.Base() <= frame <= b.confirmed {
      ConfirmedWorldIsTrue(a, TruthFor(s, A), frame);
      ConfirmedWorldIsTrue(b, TruthFor(s, B), frame);
      TrueWorldIsPairFold(s, A, a, frame - s.Base());
      TrueWorldIsPairFold(s, B, b, frame - s.Base());
    }
  }
}
