/** Where points and lost health come from: every one is paid for by shots that hit (src/simulation/simulation.cpp). */
module DamageLedger {
  import opened Core
  import opened Simulation
  import opened SimulationLaws

  const HITS_TO_KILL: int := STARTING_HP / DAMAGE

  /** Health moves in whole hits. */
  predicate WholeHits(w: World) { w.players[0].hp % DAMAGE == 0 && w.players[1].hp % DAMAGE == 0 }

  /** Four hits for each value of the 16-bit score: where the ledger wraps. */
  const WRAP: int := 0x4_0000

  function Wrapped(hits: int): int { hits % WRAP }

  /** Hits `owner` must have landed, modulo `WRAP`, for its score and its opponent's health to be what they are. */
  function Ledger(w: World, owner: PlayerId): int {
    Points(w.players[PlayerIndex(owner)].score, w.players[PlayerIndex(Other(owner))].hp)
  }

  function Points(score: int, opponentHp: int): int { HITS_TO_KILL * score + (STARTING_HP - opponentHp) / DAMAGE }

  function ActiveCount(projectiles: seq<Projectile>): nat {
    if projectiles == [] then 0
    else ActiveCount(projectiles[..|projectiles| - 1]) + if projectiles[|projectiles| - 1].active then 1 else 0
  }

  /** The shot in this slot, moved by one frame, hits the opponent of `owner`, who fired it. */
  predicate Strikes(w: World, slot: nat, owner: PlayerId)
    requires slot < MAX_PROJECTILES
  {
    var p := w.projectiles[slot];
    p.active && p.owner == owner && Moved(p).Ok? && Moved(p).value.active
    && Overlaps(Moved(p).value, w.players[PlayerIndex(Other(owner))])
  }

  function StrikesOf(w: World, slot: nat, owner: PlayerId): nat
    requires slot < MAX_PROJECTILES
  {
    if Strikes(w, slot, owner) then 1 else 0
  }

  function HitsInPass(w: World, order: seq<nat>, owner: PlayerId): nat
    requires InPool(order)
    decreases |order|
  {
    if order == [] || Touched(w, order[0], Canonical).Err? then 0
    else StrikesOf(w, order[0], owner) + HitsInPass(Touched(w, order[0], Canonical).value, order[1..], owner)
  }

  /** Hits landed by `owner` during one frame. */
  function HitsInFrame(w: World, a: u8, b: u8, owner: PlayerId): nat {
    var steered := AllSteered(w, a, b);
    if steered.Err? then 0
    else
      var spawned := AllSpawned(steered.value, a, b);
      if spawned.Err? then 0 else HitsInPass(spawned.value, PassOrder(spawned.value.projectiles), owner)
  }

  function TotalHits(w: World, script: seq<Buttons>, owner: PlayerId): nat {
    if script == [] then 0
    else
      var last := |script| - 1;
      var before := Folded(w, script[..last], Canonical);
      TotalHits(w, script[..last], owner)
      + if before.Ok? then HitsInFrame(before.value, script[last].a, script[last].b, owner) else 0
  }

  // ---- One shot ----

  lemma {:induction false} ActiveAfterUpdate(projectiles: seq<Projectile>, slot: nat, p: Projectile)
    requires slot < |projectiles|
    ensures ActiveCount(projectiles[slot := p]) - (if p.active then 1 else 0)
         == ActiveCount(projectiles) - (if projectiles[slot].active then 1 else 0)
  {
    var n := |projectiles| - 1;
    if slot == n {
      assert projectiles[slot := p][..n] == projectiles[..n];
    } else {
      assert projectiles[slot := p][..n] == projectiles[..n][slot := p];
      ActiveAfterUpdate(projectiles[..n], slot, p);
    }
  }

  /** One hit moves exactly one ledger by one, takes the shot out of the air, and leaves health in whole hits. */
  lemma TouchBalances(w: World, slot: nat)
    requires slot < MAX_PROJECTILES && PlayersSound(w.players) && WholeHits(w)
    requires Touched(w, slot, Canonical).Ok?
    ensures var r := Touched(w, slot, Canonical).value;
      && PlayersSound(r.players) && WholeHits(r)
      && Ledger(r, A) == Wrapped(Ledger(w, A) + StrikesOf(w, slot, A))
      && Ledger(r, B) == Wrapped(Ledger(w, B) + StrikesOf(w, slot, B))
      && ActiveCount(r.projectiles) + StrikesOf(w, slot, A) + StrikesOf(w, slot, B) <= ActiveCount(w.projectiles)
      && r.nextId == w.nextId
  {
    hide ActiveCount, Overlaps, PlayersSound, Hit, Wrapped, Points;
    var p := w.projectiles[slot];
    LedgerRange(w);
    if p.active {
      var r := Touched(w, slot, Canonical).value;
      ActiveAfterUpdate(w.projectiles, slot, r.projectiles[slot]);
      HitBalances(w, p.owner);
    }
  }

  lemma LedgerRange(w: World)
    requires PlayersSound(w.players) && WholeHits(w)
    ensures 0 <= Ledger(w, A) < WRAP && 0 <= Ledger(w, B) < WRAP
    ensures Wrapped(Ledger(w, A)) == Ledger(w, A) && Wrapped(Ledger(w, B)) == Ledger(w, B)
  {
    WholeHealth(w.players[0].hp);
    WholeHealth(w.players[1].hp);
  }

  /** A hit moves the ledger of the player who landed it by one, also when the score wraps. */
  lemma HitBalances(w: World, owner: PlayerId)
    requires PlayersSound(w.players) && WholeHits(w)
    ensures var r: World := w.(players := Hit(w.players, owner, Canonical));
      && PlayersSound(r.players) && WholeHits(r)
      && Ledger(r, owner) == Wrapped(Ledger(w, owner) + 1) && Ledger(r, Other(owner)) == Ledger(w, Other(owner))
  {
    hide PlayersSound, Points, Wrapped;
    HitIsSound(w.players, owner, Canonical);
    HealthRange(w.players);
    var scorer, target := w.players[PlayerIndex(owner)], w.players[PlayerIndex(Other(owner))];
    WholeHealth(target.hp);
    OneMoreHit(scorer.score, target.hp);
  }

  lemma HealthRange(players: seq<Player>)
    requires |players| == 2 && PlayersSound(players)
    ensures 1 <= players[0].hp <= STARTING_HP && 1 <= players[1].hp <= STARTING_HP
  {
  }

  lemma OneMoreHit(score: u16, hp: int)
    requires hp == 25 || hp == 50 || hp == 75 || hp == 100
    ensures if hp > DAMAGE then Points(score, hp - DAMAGE) == Wrapped(Points(score, hp) + 1)
            else Points((score + 1) % U16, STARTING_HP) == Wrapped(Points(score, hp) + 1)
  {
  }

  lemma WholeHealth(hp: int)
    requires 1 <= hp <= STARTING_HP && hp % DAMAGE == 0
    ensures hp == 25 || hp == 50 || hp == 75 || hp == 100
  {
  }

  // ---- The balance ----

  /** Everything ever fired is at least what is in the air plus the `hits` that have landed. */
  predicate Balanced(w: World, hits: nat) {
    PlayersSound(w.players) && WholeHits(w) && hits + ActiveCount(w.projectiles) < w.nextId
  }

  lemma SumsWrap(x: int, y: int, z: int)
    ensures Wrapped(Wrapped(x + y) + z) == Wrapped(x + (y + z))
  {
    var q, r := (x + y) / WRAP, (Wrapped(x + y) + z) / WRAP;
    assert x + y + z == (q + r) * WRAP + Wrapped(Wrapped(x + y) + z);
  }

  lemma WrappedZero()
    ensures Wrapped(0) == 0
  {
  }

  lemma {:induction false} PassBalances(w: World, order: seq<nat>, hits: nat)
    requires InPool(order) && Balanced(w, hits) && Passed(w, order, Canonical).Ok?
    ensures var r := Passed(w, order, Canonical).value;
      && Balanced(r, hits + HitsInPass(w, order, A) + HitsInPass(w, order, B)) && r.nextId == w.nextId
      && Ledger(r, A) == Wrapped(Ledger(w, A) + HitsInPass(w, order, A))
      && Ledger(r, B) == Wrapped(Ledger(w, B) + HitsInPass(w, order, B))
    decreases |order|
  {
    hide Ledger, PlayersSound, WholeHits, ActiveCount, Touched, StrikesOf, Wrapped;
    if order == [] {
      LedgerRange(w);
    } else {
      var t := Touched(w, order[0], Canonical).value;
      TouchBalances(w, order[0]);
      PassBalances(t, order[1..], hits + StrikesOf(w, order[0], A) + StrikesOf(w, order[0], B));
      SumsWrap(Ledger(w, A), StrikesOf(w, order[0], A), HitsInPass(t, order[1..], A));
      SumsWrap(Ledger(w, B), StrikesOf(w, order[0], B), HitsInPass(t, order[1..], B));
    }
  }

  lemma SpawnBalances(w: World, i: nat, a: u8, b: u8, hits: nat)
    requires i < 2 && Balanced(w, hits) && MaybeSpawned(w, i, a, b).Ok?
    ensures var r := MaybeSpawned(w, i, a, b).value;
      && Balanced(r, hits) && Ledger(r, A) == Ledger(w, A) && Ledger(r, B) == Ledger(w, B)
  {
    hide ActiveCount;
    var slot := FirstFree(w.projectiles);
    if slot < MAX_PROJECTILES {
      ActiveAfterUpdate(w.projectiles, slot, Shot(w.nextId, w.players[i]));
    }
  }

  lemma SteerBalances(w: World, a: u8, b: u8, hits: nat)
    requires Balanced(w, hits) && AllSteered(w, a, b).Ok?
    ensures var r := AllSteered(w, a, b).value;
      Balanced(r, hits) && r.nextId == w.nextId && Ledger(r, A) == Ledger(w, A) && Ledger(r, B) == Ledger(w, B)
  {
    hide ActiveCount;
    SteeredIsSound(w.players[0], ButtonsFor(a, b, A), A);
    SteeredIsSound(w.players[1], ButtonsFor(a, b, B), B);
  }

  /** A frame moves each ledger by exactly the hits landed in it. */
  lemma FrameBalances(w: World, a: u8, b: u8, hits: nat)
    requires Balanced(w, hits) && Step(w, a, b, Canonical).Ok?
    ensures var r := Step(w, a, b, Canonical).value;
      && Balanced(r, hits + HitsInFrame(w, a, b, A) + HitsInFrame(w, a, b, B))
      && Ledger(r, A) == Wrapped(Ledger(w, A) + HitsInFrame(w, a, b, A))
      && Ledger(r, B) == Wrapped(Ledger(w, B) + HitsInFrame(w, a, b, B))
  {
    hide AllSteered, MaybeSpawned, Passed, PassOrder, Ledger, PlayersSound, WholeHits, ActiveCount, HitsInPass, Wrapped;
    SteerBalances(w, a, b, hits);
    var steered := AllSteered(w, a, b).value;
    SpawnBalances(steered, 0, a, b, hits);
    SpawnBalances(MaybeSpawned(steered, 0, a, b).value, 1, a, b, hits);
    var spawned := AllSpawned(steered, a, b).value;
    var order := PassOrder(spawned.projectiles);
    PassBalances(spawned, order, hits);
    FrameIsFree(Passed(spawned, order, Canonical).value, NextFrame(w.frame),
      hits + HitsInPass(spawned, order, A) + HitsInPass(spawned, order, B));
  }

  lemma FrameIsFree(w: World, frame: u32, hits: nat)
    requires Balanced(w, hits)
    ensures Balanced(w.(frame := frame), hits) && Ledger(w.(frame := frame), A) == Ledger(w, A)
    ensures Ledger(w.(frame := frame), B) == Ledger(w, B)
  {
  }

  lemma {:induction false} NoneActive(projectiles: seq<Projectile>)
    requires forall i :: 0 <= i < |projectiles| ==> !projectiles[i].active
    ensures ActiveCount(projectiles) == 0
  {
    if projectiles != [] {
      NoneActive(projectiles[..|projectiles| - 1]);
    }
  }

  lemma InitialIsBalanced()
    ensures Balanced(InitialWorld(), 0) && Ledger(InitialWorld(), A) == 0 && Ledger(InitialWorld(), B) == 0
  {
    NoneActive(InitialWorld().projectiles);
  }

  /**
   * Over any script at all, each player's score and its opponent's lost health are exactly the hits it landed, four to
   * a point and modulo the 16-bit score, and no more hits are landed than shots fired.
   */
  lemma {:induction false} EveryPointIsPaid(script: seq<Buttons>)
    requires |script| <= HALF - 1
    ensures Folded(InitialWorld(), script, Canonical).Ok?
    ensures var w := Folded(InitialWorld(), script, Canonical).value;
      var hitsA, hitsB := TotalHits(InitialWorld(), script, A), TotalHits(InitialWorld(), script, B);
      && Balanced(w, hitsA + hitsB) && Ledger(w, A) == Wrapped(hitsA) && Ledger(w, B) == Wrapped(hitsB)
      && hitsA + hitsB < w.nextId <= 1 + 2 * |script|
  {
    hide Step, Sound, InitialWorld, Ledger, HitsInFrame, PlayersSound, WholeHits, ActiveCount, Wrapped;
    ReachableWorldsAreSound(script, Canonical);
    if script == [] {
      WrappedZero();
      InitialIsBalanced();
    } else {
      var last := |script| - 1;
      var before := Folded(InitialWorld(), script[..last], Canonical).value;
      var hitsA := TotalHits(InitialWorld(), script[..last], A);
      var hitsB := TotalHits(InitialWorld(), script[..last], B);
      EveryPointIsPaid(script[..last]);
      ReachableWorldsAreSound(script[..last], Canonical);
      FrameBalances(before, script[last].a, script[last].b, hitsA + hitsB);
      SumsWrap(0, hitsA, HitsInFrame(before, script[last].a, script[last].b, A));
      SumsWrap(0, hitsB, HitsInFrame(before, script[last].a, script[last].b, B));
    }
  }
}
