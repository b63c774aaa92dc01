/** The desync tracker (src/report/desync.cpp). */
module Desyncs {
  import opened Core
  import opened Simulation

  const MAX_DIAGNOSTIC_INPUTS: int := 32

  datatype HashObservation = HashObservation(frame: u32, hash: u64, confirmed: bool)

  datatype PlayerSummary = PlayerSummary(id: PlayerId, x: i32, y: i32, hp: i16, score: u16)

  datatype Diagnostic = Diagnostic(earliestFrame: u32, localHash: u64, remoteHash: u64, recentInputs: seq<InputPair>,
                                   players: seq<PlayerSummary>, activeProjectiles: nat, scenarioSeed: u64)

  /** Both sides confirmed, same boundary, different hashes. */
  predicate Divergent(local: HashObservation, remote: HashObservation) {
    local.confirmed && remote.confirmed && local.frame == remote.frame && local.hash != remote.hash
  }

  function Summary(p: Player): PlayerSummary { PlayerSummary(p.id, p.x, p.y, p.hp, p.score) }

  function LastInputs(inputs: seq<InputPair>): (r: seq<InputPair>)
    ensures |r| <= MAX_DIAGNOSTIC_INPUTS
  {
    if |inputs| > MAX_DIAGNOSTIC_INPUTS then inputs[|inputs| - MAX_DIAGNOSTIC_INPUTS..] else inputs
  }

  function Recorded(local: HashObservation, remote: HashObservation, inputs: seq<InputPair>, w: World,
      seed: u64): Diagnostic {
    Diagnostic(local.frame, local.hash, remote.hash, LastInputs(inputs), [Summary(w.players[0]), Summary(w.players[1])],
               |ActiveSlots(w.projectiles, MAX_PROJECTILES)|, seed)
  }

  /** The earliest divergence wins; an equal or later one leaves the record alone. */
  function Tracked(old_: Option<Diagnostic>, local: HashObservation, remote: HashObservation, inputs: seq<InputPair>,
                   w: World, seed: u64): Option<Diagnostic> {
    if !Divergent(local, remote) then old_
    else if old_.Some? && !FrameBefore(local.frame, old_.value.earliestFrame) then old_
    else Some(Recorded(local, remote, inputs, w, seed))
  }

  /** The last 32 of them, in order, or all when there are fewer. */
  ghost predicate LatestOf(all: seq<InputPair>, latest: seq<InputPair>) {
    && |latest| == (if |all| < 32 then |all| else 32)
    && forall i :: 0 <= i < |latest| ==> latest[i] == all[|all| - |latest| + i]
  }

  class DesyncTracker {
    const scenarioSeed: u64
    var diagnostic: Option<Diagnostic>

    constructor (seed: u64)
      ensures diagnostic == None && scenarioSeed == seed
    {
      scenarioSeed := seed;
      diagnostic := None;
    }

    method Observe(local: HashObservation, remote: HashObservation, recentInputs: seq<InputPair>, state: World)
      returns (r: Option<Diagnostic>)
      modifies this
      ensures diagnostic == old(Tracked(diagnostic, local, remote, recentInputs, state, scenarioSeed))
        && r == diagnostic
      ensures
        if local.confirmed && remote.confirmed && local.frame == remote.frame && local.hash != remote.hash
          && (old(diagnostic).None? || FrameBefore(local.frame, old(diagnostic).value.earliestFrame)) then
          && r.Some? && r.value.earliestFrame == local.frame && r.value.localHash == local.hash
          && r.value.remoteHash == remote.hash && r.value.scenarioSeed == scenarioSeed
          && LatestOf(recentInputs, r.value.recentInputs)
        else
          r == old(diagnostic)
    {
      if !local.confirmed || !remote.confirmed || local.frame != remote.frame || local.hash == remote.hash {
        return diagnostic;
      }
      if diagnostic.Some? && !FrameBefore(local.frame, diagnostic.value.earliestFrame) {
        return diagnostic;
      }
      var inputs := recentInputs;
      if |inputs| > MAX_DIAGNOSTIC_INPUTS {
        inputs := inputs[|inputs| - MAX_DIAGNOSTIC_INPUTS..];
      }
      var active := 0;
      for slot := 0 to MAX_PROJECTILES
        invariant active == |ActiveSlots(state.projectiles, slot)|
      {
        if state.projectiles[slot].active {
          active := active + 1;
        }
      }
      var players := [Summary(state.players[0]), Summary(state.players[1])];
      diagnostic := Some(Diagnostic(local.frame, local.hash, remote.hash, inputs, players, active, scenarioSeed));
      return diagnostic;
    }
  }

  // ---- The record over a run of observations ----

  /** One comparison, at the unbounded boundary `frame`. */
  datatype Comparison = Comparison(frame: int, localHash: u64, remoteHash: u64, localConfirmed: bool,
    remoteConfirmed: bool, inputs: seq<InputPair>, world: World)
  {
    function Local(): HashObservation { HashObservation(Tag(frame), localHash, localConfirmed) }
    function Remote(): HashObservation { HashObservation(Tag(frame), remoteHash, remoteConfirmed) }
    predicate Diverges() { Divergent(Local(), Remote()) }
  }

  function TrackedAll(comparisons: seq<Comparison>, seed: u64): Option<Diagnostic> {
    if comparisons == [] then None
    else
      var n := |comparisons| - 1;
      var c := comparisons[n];
      Tracked(TrackedAll(comparisons[..n], seed), c.Local(), c.Remote(), c.inputs, c.world, seed)
  }

  /** The comparison that is on record: the first of those at the least divergent frame. */
  ghost predicate IsEarliest(comparisons: seq<Comparison>, i: nat) {
    && i < |comparisons| && comparisons[i].Diverges()
    && (forall j :: 0 <= j < |comparisons| && comparisons[j].Diverges() ==>
         comparisons[i].frame <= comparisons[j].frame)
    && (forall j :: 0 <= j < i && comparisons[j].Diverges() ==> comparisons[i].frame < comparisons[j].frame)
  }

  /** Where the earliest divergence is, or |comparisons| when there is none. */
  function EarliestIndex(comparisons: seq<Comparison>): (r: nat)
    ensures r <= |comparisons|
  {
    if comparisons == [] then 0
    else
      var n := |comparisons| - 1;
      var e := EarliestIndex(comparisons[..n]);
      if comparisons[n].Diverges() && (e == n || comparisons[n].frame < comparisons[e].frame) then n
      else if e == n then n + 1
      else e
  }

  lemma {:induction false} EarliestIndexIsEarliest(comparisons: seq<Comparison>)
    ensures var e := EarliestIndex(comparisons);
      if e == |comparisons| then forall i :: 0 <= i < |comparisons| ==> !comparisons[i].Diverges()
      else IsEarliest(comparisons, e)
  {
    hide Comparison.Diverges;
    if comparisons != [] {
      EarliestIndexIsEarliest(comparisons[..|comparisons| - 1]);
    }
  }

  ghost predicate OnRecord(diagnostic: Option<Diagnostic>, comparisons: seq<Comparison>, i: nat, seed: u64) {
    if i >= |comparisons| then diagnostic.None?
    else
      var c := comparisons[i];
      diagnostic == Some(Recorded(c.Local(), c.Remote(), c.inputs, c.world, seed))
  }

  lemma {:induction false} TrackedIsEarliestIndex(comparisons: seq<Comparison>, seed: u64, origin: int)
    requires forall i :: 0 <= i < |comparisons| ==> origin <= comparisons[i].frame < origin + HALF
    ensures OnRecord(TrackedAll(comparisons, seed), comparisons, EarliestIndex(comparisons), seed)
    ensures EarliestIndex(comparisons) < |comparisons| ==> comparisons[EarliestIndex(comparisons)].Diverges()
  {
    hide Tag, FrameBefore, LastInputs, ActiveSlots, Divergent;
    if comparisons != [] {
      var n := |comparisons| - 1;
      var e := EarliestIndex(comparisons[..n]);
      TrackedIsEarliestIndex(comparisons[..n], seed, origin);
      if e < n {
        TagsRefineFrames(comparisons[n].frame, comparisons[e].frame);
      }
    }
  }

  /** Over any run of comparisons within half the tag range, the record is exactly the earliest divergence. */
  lemma RecordIsEarliest(comparisons: seq<Comparison>, seed: u64, origin: int)
    requires forall i :: 0 <= i < |comparisons| ==> origin <= comparisons[i].frame < origin + HALF
    ensures TrackedAll(comparisons, seed).None? <==> forall i :: 0 <= i < |comparisons| ==> !comparisons[i].Diverges()
    ensures TrackedAll(comparisons, seed).Some? ==>
        exists i: nat :: IsEarliest(comparisons, i) && OnRecord(TrackedAll(comparisons, seed), comparisons, i, seed)
  {
    hide TrackedAll, Comparison.Diverges;
    EarliestIndexIsEarliest(comparisons);
    TrackedIsEarliestIndex(comparisons, seed, origin);
  }
}
