/** What every frame keeps, and when a frame can fail. */
module SimulationLaws {
  import opened Core
  import opened Simulation

  predicate UnitAxis(x: int, y: int) { (x == 0 && (y == 1 || y == -1)) || (y == 0 && (x == 1 || x == -1)) }

  predicate AxisSpeed(v: int, speed: int) { v == 0 || v == speed || v == -speed }

  predicate PlayerSound(p: Player, id: PlayerId) {
    && p.id == id
    && PLAYER_RADIUS <= p.x <= ARENA_WIDTH - PLAYER_RADIUS
    && PLAYER_RADIUS <= p.y <= ARENA_HEIGHT - PLAYER_RADIUS
    && AxisSpeed(p.vx, PLAYER_SPEED) && AxisSpeed(p.vy, PLAYER_SPEED)
    && UnitAxis(p.facingX, p.facingY)
    && 1 <= p.hp <= STARTING_HP
    && p.cooldown <= COOLDOWN_TICKS
  }

  predicate ShotSound(p: Projectile, nextId: u32, longest: nat) {
    && p.id < nextId
    && 0 <= p.x <= ARENA_WIDTH && 0 <= p.y <= ARENA_HEIGHT
    && AxisSpeed(p.vx, PROJECTILE_SPEED) && AxisSpeed(p.vy, PROJECTILE_SPEED)
    && 1 <= p.ttl <= longest
  }

  predicate DistinctIds(projectiles: seq<Projectile>) {
    forall i, j :: 0 <= i < j < |projectiles| && projectiles[i].active && projectiles[j].active ==>
        projectiles[i].id != projectiles[j].id
  }

  predicate PlayersSound(players: seq<Player>)
    requires |players| == 2
  {
    PlayerSound(players[0], A) && PlayerSound(players[1], B)
  }

  /** Slots still `waiting` for the projectile pass may hold a shot fired this frame (120 ticks to live). */
  predicate PoolSound(w: World, waiting: seq<nat>) {
    && DistinctIds(w.projectiles)
    && forall i :: 0 <= i < MAX_PROJECTILES && w.projectiles[i].active ==>
         ShotSound(w.projectiles[i], w.nextId, if i in waiting then LIFETIME_TICKS else LIFETIME_TICKS - 1)
  }

  /** The invariant of every reachable frame boundary. */
  predicate Sound(w: World) { PlayersSound(w.players) && PoolSound(w, []) }

  /** Enough ids remain for the two shots a frame can fire. */
  predicate HasIds(w: World) { w.nextId + 2 < U32 }

  lemma InitialWorldIsSound()
    ensures Sound(InitialWorld()) && InitialWorld().nextId == 1 && InitialWorld().frame == 0
  {
  }

  lemma SteeredIsSound(p: Player, buttons: u8, id: PlayerId)
    requires PlayerSound(p, id)
    ensures Steered(p, buttons).Ok? && PlayerSound(Steered(p, buttons).value, id)
  {
    var horizontal := Axis(HasButton(buttons, LEFT), HasButton(buttons, RIGHT));
    var vertical := Axis(HasButton(buttons, UP), HasButton(buttons, DOWN));
    assert AxisSpeed(horizontal * PLAYER_SPEED, PLAYER_SPEED) && AxisSpeed(vertical * PLAYER_SPEED, PLAYER_SPEED);
  }

  lemma SpawnedIsSound(w: World, i: nat, a: u8, b: u8)
    requires i < 2 && PlayersSound(w.players) && PoolSound(w, AllSlots()) && w.nextId < U32 - 1
    ensures MaybeSpawned(w, i, a, b).Ok?
    ensures var r := MaybeSpawned(w, i, a, b).value;
      && PlayersSound(r.players) && PoolSound(r, AllSlots()) && w.nextId <= r.nextId <= w.nextId + 1
      && r.frame == w.frame
  {
    var p := w.players[i];
    assert AxisSpeed(p.facingX * PROJECTILE_SPEED, PROJECTILE_SPEED);
    assert AxisSpeed(p.facingY * PROJECTILE_SPEED, PROJECTILE_SPEED);
  }

  function AllSlots(): (r: seq<nat>)
    ensures |r| == MAX_PROJECTILES && forall i :: 0 <= i < MAX_PROJECTILES ==> r[i] == i && i in r
  {
    var r := seq(MAX_PROJECTILES, (i: nat) => i);
    assert forall i :: 0 <= i < MAX_PROJECTILES ==> r[i] == i && r[i] in r;
    r
  }

  lemma HitIsSound(players: seq<Player>, owner: PlayerId, variant: Variant)
    requires |players| == 2 && PlayersSound(players)
    ensures PlayersSound(Hit(players, owner, variant))
  {
  }

  lemma MovedIsSound(p: Projectile, nextId: u32)
    requires p.active && ShotSound(p, nextId, LIFETIME_TICKS)
    ensures Moved(p).Ok? && Moved(p).value.id == p.id
    ensures Moved(p).value.active ==> ShotSound(Moved(p).value, nextId, LIFETIME_TICKS - 1)
  {
  }

  lemma TouchedIsSound(w: World, order: seq<nat>, variant: Variant)
    requires order != [] && InPool(order) && PlayersSound(w.players) && PoolSound(w, order)
    ensures Touched(w, order[0], variant).Ok?
    ensures var r := Touched(w, order[0], variant).value;
      && PlayersSound(r.players) && PoolSound(r, order[1..]) && r.nextId == w.nextId && r.frame == w.frame
  {
    var slot := order[0];
    assert forall i :: i in order <==> i == slot || i in order[1..];
    if w.projectiles[slot].active {
      MovedIsSound(w.projectiles[slot], w.nextId);
      HitIsSound(w.players, w.projectiles[slot].owner, variant);
    }
  }

  lemma {:induction false} PassedIsSound(w: World, order: seq<nat>, variant: Variant)
    requires InPool(order) && PlayersSound(w.players) && PoolSound(w, order)
    ensures Passed(w, order, variant).Ok?
    ensures var r := Passed(w, order, variant).value; Sound(r) && r.nextId == w.nextId && r.frame == w.frame
    decreases |order|
  {
    if order != [] {
      TouchedIsSound(w, order, variant);
      PassedIsSound(Touched(w, order[0], variant).value, order[1..], variant);
    }
  }

  /** No sound world with two ids to spare fails to step, and the step is sound again. */
  lemma StepIsTotal(w: World, a: u8, b: u8, variant: Variant)
    requires Sound(w) && HasIds(w)
    ensures Step(w, a, b, variant).Ok?
    ensures var r := Step(w, a, b, variant).value;
      Sound(r) && w.nextId <= r.nextId <= w.nextId + 2 && r.frame == NextFrame(w.frame)
  {
    SteeredIsSound(w.players[0], ButtonsFor(a, b, A), A);
    SteeredIsSound(w.players[1], ButtonsFor(a, b, B), B);
    var steered := AllSteered(w, a, b).value;
    SpawnedIsSound(steered, 0, a, b);
    SpawnedIsSound(MaybeSpawned(steered, 0, a, b).value, 1, a, b);
    var spawned := AllSpawned(steered, a, b).value;
    PassedIsSound(spawned, PassOrder(spawned.projectiles), variant);
  }

  // ---- Folding the transition over an input history ----

  /** The next boundary; a failing step (never reached from a sound world) stays put. */
  function Next(w: World, a: u8, b: u8, variant: Variant): World {
    var r := Step(w, a, b, variant);
    if r.Ok? then r.value else w
  }

  /** With matching inputs, `simulate_frame` is total on sound worlds and depends on inputs only through buttons. */
  lemma SimulatedIsNext(w: World, inputs: InputPair, variant: Variant)
    requires Sound(w) && HasIds(w) && Matches(inputs, w.frame)
    ensures Simulated(w, w.frame, inputs, variant) == Ok(Next(w, inputs.a.buttons, inputs.b.buttons, variant))
    ensures var r := Next(w, inputs.a.buttons, inputs.b.buttons, variant);
      Sound(r) && w.nextId <= r.nextId <= w.nextId + 2 && r.frame == NextFrame(w.frame)
  {
    StepIsTotal(w, inputs.a.buttons, inputs.b.buttons, variant);
  }

  lemma NextIsSound(w: World, a: u8, b: u8, variant: Variant)
    requires Sound(w) && HasIds(w)
    ensures var r := Next(w, a, b, variant);
      Sound(r) && w.nextId <= r.nextId <= w.nextId + 2 && r.frame == NextFrame(w.frame)
  {
    StepIsTotal(w, a, b, variant);
  }

  datatype Buttons = Buttons(a: u8, b: u8)

  function Folded(w: World, script: seq<Buttons>, variant: Variant): Result<World> {
    if script == [] then
      Ok(w)
    else
      var last := |script| - 1;
      var before :- Folded(w, script[..last], variant);
      Step(before, script[last].a, script[last].b, variant)
  }

  /** From the initial world no frame numbered up to 2^31 - 2 can fail, and every boundary is sound. */
  lemma {:induction false} ReachableWorldsAreSound(script: seq<Buttons>, variant: Variant)
    requires |script| <= HALF - 1
    ensures Folded(InitialWorld(), script, variant).Ok?
    ensures var w := Folded(InitialWorld(), script, variant).value;
      Sound(w) && w.nextId <= 1 + 2 * |script| && w.frame == |script|
  {
    hide Step, Sound, InitialWorld;
    if script == [] {
      InitialWorldIsSound();
    } else {
      var last := |script| - 1;
      ReachableWorldsAreSound(script[..last], variant);
      StepIsTotal(Folded(InitialWorld(), script[..last], variant).value, script[last].a, script[last].b, variant);
    }
  }
}
