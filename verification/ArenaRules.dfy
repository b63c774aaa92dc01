/**
 * The rules of the arena in plain numbers (src/simulation/simulation.cpp), written again from each player's own buttons
 * and each shot's own flight. `FrameFollowsTheRules` proves that the transition is exactly these rules.
 */
module ArenaRules {
  import opened Core
  import opened Simulation
  import opened SimulationLaws

  // ---- Walking: buttons 1 up, 2 down, 4 left, 8 right ----

  /** One coordinate: 4096 towards the only pressed direction, kept within 12288 .. limit. */
  predicate Glides(back: bool, forth: bool, from: int, limit: int, to: int, velocity: int) {
    && velocity == (if forth && !back then 4096 else if back && !forth then -4096 else 0)
    && to == if from + velocity > limit then limit else if from + velocity < 12288 then 12288 else from + velocity
  }

  /** A horizontal step turns the player sideways, a vertical one alone turns it up or down, and rest turns nothing. */
  predicate Faces(up: bool, down: bool, left: bool, right: bool, before: Player, after: Player) {
    if right && !left then after.facingX == 1 && after.facingY == 0
    else if left && !right then after.facingX == -1 && after.facingY == 0
    else if down && !up then after.facingX == 0 && after.facingY == 1
    else if up && !down then after.facingX == 0 && after.facingY == -1
    else after.facingX == before.facingX && after.facingY == before.facingY
  }

  predicate Walks(before: Player, buttons: u8, after: Player) {
    var up, down, left, right := buttons % 2 == 1, buttons / 2 % 2 == 1, buttons / 4 % 2 == 1, buttons / 8 % 2 == 1;
    && after.id == before.id && after.hp == before.hp && after.score == before.score
    && after.cooldown == (if before.cooldown == 0 then 0 else before.cooldown - 1)
    && Glides(left, right, before.x, 1036288, after.x, after.vx)
    && Glides(up, down, before.y, 577536, after.y, after.vy)
    && Faces(up, down, left, right, before, after)
  }

  /** Each player walks by its own buttons; nothing else moves. */
  predicate Walked(before: World, a: u8, b: u8, after: World) {
    && Walks(before.players[0], a, after.players[0]) && Walks(before.players[1], b, after.players[1])
    && after.frame == before.frame && after.projectiles == before.projectiles && after.nextId == before.nextId
  }

  // ---- Firing: button 16 ----

  predicate Clamped(value: int, limit: int, to: int) {
    to == if value < 4096 then 4096 else if value > limit then limit else value
  }

  /** A new shot: 18 units ahead on the owner's facing, 8 units a frame, 120 frames to live. */
  predicate FiredBy(p: Player, shot: Projectile) {
    && shot.active && shot.owner == p.id && shot.ttl == 120
    && Clamped(p.x + 18432 * p.facingX, 1044480, shot.x) && Clamped(p.y + 18432 * p.facingY, 585728, shot.y)
    && shot.vx == 8192 * p.facingX && shot.vy == 8192 * p.facingY
  }

  predicate LeastFree(projectiles: seq<Projectile>, slot: nat) {
    slot < |projectiles| && !projectiles[slot].active && forall i :: 0 <= i < slot ==> projectiles[i].active
  }

  ghost predicate CanFire(w: World, i: nat, buttons: u8)
    requires i < 2
  {
    buttons / 16 % 2 == 1 && w.players[i].cooldown == 0 && exists slot :: LeastFree(w.projectiles, slot)
  }

  /** The first free slot takes the shot under the next id; the shooter cools down for 15 frames. */
  predicate Fired(before: World, i: nat, slot: nat, shot: Projectile, after: World)
    requires i < 2
  {
    && LeastFree(before.projectiles, slot) && FiredBy(before.players[i], shot) && shot.id == before.nextId
    && after.projectiles == before.projectiles[slot := shot] && after.nextId == before.nextId + 1
    && after.players == before.players[i := before.players[i].(cooldown := 15)] && after.frame == before.frame
  }

  ghost predicate Shoots(before: World, i: nat, buttons: u8, after: World)
    requires i < 2
  {
    if CanFire(before, i, buttons) then exists slot, shot :: Fired(before, i, slot, shot, after) else after == before
  }

  // ---- Flight and hits ----

  predicate Near(shot: int, target: int) { -16384 <= shot - target <= 16384 }

  /** `p` moved by its velocity, one frame older. */
  predicate Glided(p: Projectile, q: Projectile) {
    && q.x == p.x + p.vx && q.y == p.y + p.vy && q.ttl == (if p.ttl == 0 then 0 else p.ttl - 1)
    && q.id == p.id && q.owner == p.owner && q.vx == p.vx && q.vy == p.vy
  }

  predicate InFlight(q: Projectile) { q.ttl > 0 && 0 <= q.x <= 1048576 && 0 <= q.y <= 589824 }

  /** 25 damage, or 26 under the biased rules; whoever is left without health respawns whole and pays a point. */
  predicate Struck(target: Player, scorer: Player, variant: Variant, target': Player, scorer': Player) {
    var health := target.hp - if variant == DamageBias then 26 else 25;
    if health > 0 then
      target' == target.(hp := health) && scorer' == scorer
    else
      && target' == Player(target.id, if target.id == A then 262144 else 786432, 294912, 0, 0,
                           if target.id == A then 1 else -1, 0, 100, target.score, 0)
      && scorer' == scorer.(score := if scorer.score == 65535 then 0 else scorer.score + 1)
  }

  /** One shot's frame: it flies on, expires, leaves the arena, or hits the other player and is gone. */
  predicate Flies(before: World, slot: nat, variant: Variant, after: World)
    requires slot < 64
  {
    var p, q := before.projectiles[slot], after.projectiles[slot];
    var scorer := if p.owner == A then 0 else 1;
    var hits := InFlight(q) && Near(q.x, before.players[1 - scorer].x) && Near(q.y, before.players[1 - scorer].y);
    && Glided(p, q) && q.active == (InFlight(q) && !hits)
    && after.projectiles == before.projectiles[slot := q] && after.frame == before.frame
    && after.nextId == before.nextId
    && if hits then
         Struck(before.players[1 - scorer], before.players[scorer], variant, after.players[1 - scorer],
           after.players[scorer])
       else
         after.players == before.players
  }

  /** Every shot in the air, once, the oldest id first. */
  predicate OldestFirst(projectiles: seq<Projectile>, order: seq<nat>) {
    && (forall i :: 0 <= i < |order| ==> order[i] < |projectiles| && projectiles[order[i]].active)
    && (forall i, j :: 0 <= i < j < |order| ==> projectiles[order[i]].id < projectiles[order[j]].id)
    && (forall slot: nat :: slot < |projectiles| && projectiles[slot].active ==> slot in order)
  }

  ghost predicate AllFly(worlds: seq<World>, order: seq<nat>, variant: Variant) {
    && |worlds| == |order| + 1
    && forall k :: 0 <= k < |order| ==> order[k] < 64 && Flies(worlds[k], order[k], variant, worlds[k + 1])
  }

  // ---- The frame ----

  /** A frame, stage by stage: both walk, A fires, B fires, every shot flies. */
  datatype Stages = Stages(walked: World, fired: World, order: seq<nat>, worlds: seq<World>)

  ghost predicate Plays(w: World, a: u8, b: u8, variant: Variant, g: Stages, after: World) {
    && Walked(w, a, b, g.walked)
    && Shoots(g.walked, 0, a, g.fired)
    && AllFly(g.worlds, g.order, variant)
    && Shoots(g.fired, 1, b, g.worlds[0])
    && OldestFirst(g.worlds[0].projectiles, g.order)
    && after == g.worlds[|g.order|].(frame := if w.frame == 0xFFFF_FFFF then 0 else w.frame + 1)
  }

  // ---- Each stage follows its rule ----

  lemma ButtonBits(buttons: u8)
    ensures HasButton(buttons, UP) == (buttons % 2 == 1) && HasButton(buttons, DOWN) == (buttons / 2 % 2 == 1)
    ensures HasButton(buttons, LEFT) == (buttons / 4 % 2 == 1) && HasButton(buttons, RIGHT) == (buttons / 8 % 2 == 1)
    ensures HasButton(buttons, ATTACK) == (buttons / 16 % 2 == 1)
  {
  }

  lemma SteeredWalks(p: Player, buttons: u8)
    requires Steered(p, buttons).Ok?
    ensures Walks(p, buttons, Steered(p, buttons).value)
  {
    hide HasButton;
    ButtonBits(buttons);
  }

  /** Steering is walking, each player by its own buttons whatever the other one presses. */
  lemma SteeringIsWalking(w: World, a: u8, b: u8)
    requires Sound(w)
    ensures AllSteered(w, a, b).Ok? && Walked(w, a, b, AllSteered(w, a, b).value)
  {
    hide Steered;
    SteeredIsSound(w.players[0], a, A);
    SteeredIsSound(w.players[1], b, B);
    SteeredWalks(w.players[0], a);
    SteeredWalks(w.players[1], b);
  }

  lemma FirstFreeIsLeast(projectiles: seq<Projectile>, slot: nat)
    ensures LeastFree(projectiles, slot) <==> slot == FirstFree(projectiles) && slot < |projectiles|
  {
  }

  lemma ShotIsFired(id: u32, p: Player, shot: Projectile)
    ensures FiredBy(p, shot) && shot.id == id <==> shot == Shot(id, p)
  {
  }

  /** Spawning is firing, on the player's own button and cooldown. */
  lemma SpawningIsFiring(w: World, i: nat, a: u8, b: u8)
    requires i < 2 && PlayersSound(w.players) && w.nextId < U32 - 1
    ensures MaybeSpawned(w, i, a, b).Ok? && Shoots(w, i, if i == 0 then a else b, MaybeSpawned(w, i, a, b).value)
  {
    hide Shot, FiredBy, HasButton, LeastFree;
    var slot := FirstFree(w.projectiles);
    var buttons := if i == 0 then a else b;
    ButtonBits(buttons);
    FirstFreeIsLeast(w.projectiles, slot);
    forall s: nat ensures LeastFree(w.projectiles, s) <==> s == slot && s < |w.projectiles| {
      FirstFreeIsLeast(w.projectiles, s);
    }
    if CanFire(w, i, buttons) {
      ShotIsFired(w.nextId, w.players[i], Shot(w.nextId, w.players[i]));
      assert Fired(w, i, slot, Shot(w.nextId, w.players[i]), MaybeSpawned(w, i, a, b).value);
    }
  }

  lemma HitIsAStrike(players: seq<Player>, owner: PlayerId, variant: Variant)
    requires |players| == 2 && PlayersSound(players)
    ensures var scorer := if owner == A then 0 else 1;
      var r := Hit(players, owner, variant);
      Struck(players[1 - scorer], players[scorer], variant, r[1 - scorer], r[scorer])
  {
  }

  lemma TouchingIsFlying(w: World, slot: nat, variant: Variant)
    requires slot < 64 && w.projectiles[slot].active && PlayersSound(w.players) && Touched(w, slot, variant).Ok?
    ensures Flies(w, slot, variant, Touched(w, slot, variant).value)
  {
    hide Hit, Struck, PlayersSound;
    HitIsAStrike(w.players, w.projectiles[slot].owner, variant);
  }

  /** The rule leaves no choice: two worlds after the same flight are the same world. */
  lemma FlightIsUnique(w: World, slot: nat, variant: Variant, v: World, u: World)
    requires slot < 64 && Flies(w, slot, variant, v) && Flies(w, slot, variant, u)
    requires w.projectiles[slot].active
    ensures v == u
  {
    assert v.projectiles[slot] == u.projectiles[slot];
    assert v.players == [v.players[0], v.players[1]] && u.players == [u.players[0], u.players[1]];
  }

  lemma StepIsUnique(p: Player, buttons: u8, q: Player, r: Player)
    requires Walks(p, buttons, q) && Walks(p, buttons, r)
    ensures q == r
  {
  }

  lemma WalkIsUnique(w: World, a: u8, b: u8, v: World, u: World)
    requires Walked(w, a, b, v) && Walked(w, a, b, u)
    ensures v == u
  {
    hide Walks;
    StepIsUnique(w.players[0], a, v.players[0], u.players[0]);
    StepIsUnique(w.players[1], b, v.players[1], u.players[1]);
    assert v.players == [v.players[0], v.players[1]] && u.players == [u.players[0], u.players[1]];
  }

  lemma ShotIsUnique(w: World, i: nat, buttons: u8, v: World, u: World)
    requires i < 2 && Shoots(w, i, buttons, v) && Shoots(w, i, buttons, u)
    ensures v == u
  {
    hide FiredBy, LeastFree;
    if CanFire(w, i, buttons) {
      var slot, shot :| Fired(w, i, slot, shot, v);
      var slot', shot' :| Fired(w, i, slot', shot', u);
      FirstFreeIsLeast(w.projectiles, slot);
      FirstFreeIsLeast(w.projectiles, slot');
      ShotIsFired(w.nextId, w.players[i], shot);
      ShotIsFired(w.nextId, w.players[i], shot');
    }
  }

  lemma PassIsOldestFirst(projectiles: seq<Projectile>)
    requires DistinctIds(projectiles)
    ensures OldestFirst(projectiles, PassOrder(projectiles))
  {
    hide PassOrder;
    var pass := PassOrder(projectiles);
    forall i | 0 <= i < |pass| ensures pass[i] < |projectiles| && projectiles[pass[i]].active {
      assert pass[i] in pass;
    }
    forall i, j | 0 <= i < j < |pass| ensures projectiles[pass[i]].id < projectiles[pass[j]].id {
      assert Precedes(projectiles, pass[i], pass[j]);
    }
  }

  lemma OldestFirstIsTheOrder(projectiles: seq<Projectile>, order: seq<nat>)
    requires DistinctIds(projectiles)
    ensures OldestFirst(projectiles, order) <==> order == PassOrder(projectiles)
  {
    hide PassOrder;
    PassIsOldestFirst(projectiles);
    if OldestFirst(projectiles, order) {
      forall s | s in order ensures s in PassOrder(projectiles) {
        var i :| 0 <= i < |order| && order[i] == s;
      }
      SortIsUnique(projectiles, order, PassOrder(projectiles));
    }
  }

  /** The slots still to be visited hold the shots they held before. */
  lemma Undisturbed(w: World, slot: nat, variant: Variant, v: World, order: seq<nat>)
    requires slot < 64 && Flies(w, slot, variant, v) && InPool(order) && slot !in order
    requires forall k :: 0 <= k < |order| ==> w.projectiles[order[k]].active
    ensures forall k :: 0 <= k < |order| ==> v.projectiles[order[k]].active
  {
    hide Struck, Glided, InFlight;
  }

  lemma {:induction false} PassingIsFlying(w: World, order: seq<nat>, variant: Variant) returns (worlds: seq<World>)
    requires InPool(order) && Distinct(order) && PlayersSound(w.players) && PoolSound(w, order)
    requires forall k :: 0 <= k < |order| ==> w.projectiles[order[k]].active
    ensures AllFly(worlds, order, variant) && worlds[0] == w
    ensures Passed(w, order, variant) == Ok(worlds[|order|])
    decreases |order|
  {
    hide PlayersSound, PoolSound, Touched, Flies;
    if order == [] {
      worlds := [w];
    } else {
      TouchedIsSound(w, order, variant);
      TouchingIsFlying(w, order[0], variant);
      var next := Touched(w, order[0], variant).value;
      Undisturbed(w, order[0], variant, next, order[1..]);
      var rest := PassingIsFlying(next, order[1..], variant);
      worlds := [w] + rest;
      forall k | 0 <= k < |order| ensures order[k] < 64 && Flies(worlds[k], order[k], variant, worlds[k + 1]) {
        assert k > 0 ==> worlds[k] == rest[k - 1] && order[k] == order[1..][k - 1];
      }
    }
  }

  lemma {:induction false} FlightsAreUnique(worlds: seq<World>, others: seq<World>, order: seq<nat>, variant: Variant,
      k: nat)
    requires AllFly(worlds, order, variant) && AllFly(others, order, variant) && worlds[0] == others[0]
    requires Distinct(order) && k <= |order|
    requires forall i :: 0 <= i < |order| ==> worlds[0].projectiles[order[i]].active
    ensures worlds[k] == others[k]
    ensures forall i :: k <= i < |order| ==> worlds[k].projectiles[order[i]].active
  {
    hide Flies;
    if k > 0 {
      FlightsAreUnique(worlds, others, order, variant, k - 1);
      assert Flies(worlds[k - 1], order[k - 1], variant, worlds[k - 1 + 1]);
      assert Flies(others[k - 1], order[k - 1], variant, others[k - 1 + 1]);
      FlightIsUnique(worlds[k - 1], order[k - 1], variant, worlds[k], others[k]);
      Undisturbed(worlds[k - 1], order[k - 1], variant, worlds[k], order[k..]);
      forall i | k <= i < |order| ensures worlds[k].projectiles[order[i]].active {
        assert order[i] == order[k..][i - k];
      }
    }
  }

  // ---- The frame follows the rules ----

  lemma StagesOf(w: World, a: u8, b: u8, variant: Variant) returns (g: Stages)
    requires Sound(w) && HasIds(w)
    ensures Step(w, a, b, variant).Ok? && Plays(w, a, b, variant, g, Step(w, a, b, variant).value)
    ensures DistinctIds(g.worlds[0].projectiles)
  {
    hide Walked, Shoots, Flies, OldestFirst, AllFly, Passed, PassOrder, MaybeSpawned, AllSteered, PlayersSound;
    StepIsTotal(w, a, b, variant);
    SteeringIsWalking(w, a, b);
    var walked := AllSteered(w, a, b).value;
    SteeredIsReady(w, a, b);
    SpawnedIsSound(walked, 0, a, b);
    SpawningIsFiring(walked, 0, a, b);
    var fired := MaybeSpawned(walked, 0, a, b).value;
    SpawnedIsSound(fired, 1, a, b);
    SpawningIsFiring(fired, 1, a, b);
    var second := MaybeSpawned(fired, 1, a, b).value;
    var order := PassOrder(second.projectiles);
    OldestFirstIsTheOrder(second.projectiles, order);
    OrderIsReady(second);
    var worlds := PassingIsFlying(second, order, variant);
    g := Stages(walked, fired, order, worlds);
  }

  lemma SteeredIsReady(w: World, a: u8, b: u8)
    requires Sound(w) && HasIds(w) && AllSteered(w, a, b).Ok?
    ensures var r := AllSteered(w, a, b).value;
      PlayersSound(r.players) && PoolSound(r, AllSlots()) && r.nextId == w.nextId
  {
    SteeredIsSound(w.players[0], ButtonsFor(a, b, A), A);
    SteeredIsSound(w.players[1], ButtonsFor(a, b, B), B);
  }

  lemma OrderIsReady(w: World)
    requires PoolSound(w, AllSlots())
    ensures var order := PassOrder(w.projectiles);
      && InPool(order) && Distinct(order) && PoolSound(w, order) && DistinctIds(w.projectiles)
      && forall k :: 0 <= k < |order| ==> w.projectiles[order[k]].active
  {
    hide PassOrder;
    var order := PassOrder(w.projectiles);
    forall k | 0 <= k < |order| ensures order[k] < 64 && w.projectiles[order[k]].active {
      assert order[k] in order;
    }
    forall i, j | 0 <= i < j < |order| ensures order[i] != order[j] {
      assert Precedes(w.projectiles, order[i], order[j]);
    }
  }

  lemma OrderIsDistinct(projectiles: seq<Projectile>, order: seq<nat>)
    requires OldestFirst(projectiles, order)
    ensures Distinct(order)
  {
  }

  lemma StagesAreUnique(w: World, a: u8, b: u8, variant: Variant, g: Stages, v: World, h: Stages, u: World)
    requires Plays(w, a, b, variant, g, v) && Plays(w, a, b, variant, h, u) && DistinctIds(g.worlds[0].projectiles)
    ensures v == u
  {
    hide Walked, Shoots, OldestFirst, AllFly;
    WalkIsUnique(w, a, b, g.walked, h.walked);
    ShotIsUnique(g.walked, 0, a, g.fired, h.fired);
    FirstWorlds(g, variant);
    FirstWorlds(h, variant);
    ShotIsUnique(g.fired, 1, b, g.worlds[0], h.worlds[0]);
    var projectiles := g.worlds[0].projectiles;
    OldestFirstIsTheOrder(projectiles, g.order);
    OldestFirstIsTheOrder(projectiles, h.order);
    OrderIsDistinct(projectiles, g.order);
    Visited(projectiles, g.order);
    FlightsAreUnique(g.worlds, h.worlds, g.order, variant, |g.order|);
  }

  lemma FirstWorlds(g: Stages, variant: Variant)
    requires AllFly(g.worlds, g.order, variant)
    ensures |g.worlds| == |g.order| + 1
  {
    hide Flies;
  }

  lemma Visited(projectiles: seq<Projectile>, order: seq<nat>)
    requires OldestFirst(projectiles, order)
    ensures forall i :: 0 <= i < |order| ==> order[i] < |projectiles| && projectiles[order[i]].active
  {
  }

  /** From every sound world the transition is exactly the rules: it plays them, and they allow nothing else. */
  lemma FrameFollowsTheRules(w: World, a: u8, b: u8, variant: Variant, after: World)
    requires Sound(w) && HasIds(w)
    ensures Step(w, a, b, variant) == Ok(after) <==> exists g :: Plays(w, a, b, variant, g, after)
  {
    hide Plays, Step, Sound;
    var g := StagesOf(w, a, b, variant);
    if h :| Plays(w, a, b, variant, h, after) {
      StagesAreUnique(w, a, b, variant, g, Step(w, a, b, variant).value, h, after);
    }
  }

  // ---- Where a frame starts, and what refuses it ----

  predicate AtStart(p: Player, id: PlayerId, x: i32, facing: i8) {
    p == Player(id, x, 294912, 0, 0, facing, 0, 100, 0, 0)
  }

  lemma StartingPositions()
    ensures var w := InitialWorld();
      && w.frame == 0 && w.nextId == 1
      && AtStart(w.players[0], A, 262144, 1) && AtStart(w.players[1], B, 786432, -1)
      && forall i :: 0 <= i < 64 ==> w.projectiles[i] == Projectile(false, 0, A, 0, 0, 0, 0, 0)
  {
  }

  /** A frame takes this frame's input of each player, in its own place, and nothing else. */
  lemma MismatchesAreRefused(w: World, frame: u32, inputs: InputPair, variant: Variant)
    ensures Simulated(w, frame, inputs, variant) ==
      if w.frame == frame && inputs.a.frame == frame && inputs.b.frame == frame && inputs.a.player == A
        && inputs.b.player == B
      then Step(w, inputs.a.buttons, inputs.b.buttons, variant)
      else Err(FrameMismatch)
  {
    hide Step;
  }

  predicate Fits32(x: int) { -0x8000_0000 <= x < 0x8000_0000 }

  predicate Moves32(x: int, back: bool, forth: bool) {
    Fits32(x + if forth && !back then 4096 else if back && !forth then -4096 else 0)
  }

  /** In any state at all, a walk or a flight fails exactly when a coordinate would leave 32 bits. */
  lemma OverflowIsRefused(p: Player, buttons: u8, q: Projectile)
    ensures Steered(p, buttons).Err? <==>
        !(Moves32(p.x, buttons / 4 % 2 == 1, buttons / 8 % 2 == 1) && Moves32(p.y, buttons % 2 == 1,
          buttons / 2 % 2 == 1))
    ensures Moved(q).Err? <==> !(Fits32(q.x + q.vx) && Fits32(q.y + q.vy))
    ensures Steered(p, buttons).Err? ==> Steered(p, buttons) == Err(ArithmeticOverflow)
    ensures Moved(q).Err? ==> Moved(q) == Err(ArithmeticOverflow)
  {
    hide HasButton;
    ButtonBits(buttons);
  }

  /** A shot fails exactly when it would be fired and the ids have run out. */
  lemma LastIdIsRefused(w: World, i: nat, a: u8, b: u8)
    requires i < 2 && w.players[i].id == if i == 0 then A else B
    ensures MaybeSpawned(w, i, a, b).Err? <==> CanFire(w, i, if i == 0 then a else b) && w.nextId == 0xFFFF_FFFF
    ensures MaybeSpawned(w, i, a, b).Err? ==> MaybeSpawned(w, i, a, b) == Err(ArithmeticOverflow)
  {
    hide HasButton, LeastFree, Shot;
    ButtonBits(if i == 0 then a else b);
    var slot := FirstFree(w.projectiles);
    FirstFreeIsLeast(w.projectiles, slot);
    forall s: nat ensures LeastFree(w.projectiles, s) <==> s == slot && s < |w.projectiles| {
      FirstFreeIsLeast(w.projectiles, s);
    }
  }

  // ---- Each player's own buttons ----

  /**
   * The other player's buttons change nothing about how a player walks, nor about whether A fires; whether B fires
   * depends on A only when A takes the last free slot.
   */
  lemma ButtonsAreOnesOwn(w: World, a: u8, b: u8, c: u8)
    requires Sound(w) && HasIds(w)
    ensures AllSteered(w, a, b).Ok? && AllSteered(w, a, c).Ok? && AllSteered(w, c, b).Ok?
    ensures AllSteered(w, a, b).value.players[0] == AllSteered(w, a, c).value.players[0]
    ensures AllSteered(w, a, b).value.players[1] == AllSteered(w, c, b).value.players[1]
    ensures MaybeSpawned(w, 0, a, b) == MaybeSpawned(w, 0, a, c)
    ensures MaybeSpawned(w, 0, a, b).Ok? && Shoots(w, 0, a, MaybeSpawned(w, 0, a, b).value)
    ensures (exists i, j :: 0 <= i < j < 64 && !w.projectiles[i].active && !w.projectiles[j].active) ==>
        (CanFire(MaybeSpawned(w, 0, a, b).value, 1, b) <==> CanFire(w, 1, b))
  {
    hide Steered, Shot, Fires;
    SteeringIsWalking(w, a, b);
    SteeringIsWalking(w, a, c);
    SteeringIsWalking(w, c, b);
    SpawningIsFiring(w, 0, a, b);
    if i, j :| 0 <= i < j < 64 && !w.projectiles[i].active && !w.projectiles[j].active {
      LeastExists(w.projectiles);
      LeastExists(MaybeSpawned(w, 0, a, b).value.projectiles);
      var fired := MaybeSpawned(w, 0, a, b).value;
      var slot := FirstFree(w.projectiles);
      assert !fired.projectiles[if slot == i then j else i].active;
    }
  }

  lemma LeastExists(projectiles: seq<Projectile>)
    ensures (exists slot :: LeastFree(projectiles, slot))
        <==> exists i :: 0 <= i < |projectiles| && !projectiles[i].active
  {
    var slot := FirstFree(projectiles);
    FirstFreeIsLeast(projectiles, slot);
  }
}
