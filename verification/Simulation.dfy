/** The fixed-point arena state and its one-frame transition (src/simulation/simulation.cpp). */
module Simulation {
  import opened Bits
  import opened Core

  const SUBUNITS: int := 1024
  const ARENA_WIDTH: int := 1024 * SUBUNITS
  const ARENA_HEIGHT: int := 576 * SUBUNITS
  const PLAYER_RADIUS: int := 12 * SUBUNITS
  const PROJECTILE_RADIUS: int := 4 * SUBUNITS
  const PLAYER_SPEED: int := 4 * SUBUNITS
  const PROJECTILE_SPEED: int := 8 * SUBUNITS
  const SPAWN_OFFSET: int := 18 * SUBUNITS
  const HIT_EXTENT: int := PLAYER_RADIUS + PROJECTILE_RADIUS
  const PLAYER_A_SPAWN_X: int := ARENA_WIDTH / 4
  const PLAYER_B_SPAWN_X: int := ARENA_WIDTH * 3 / 4
  const PLAYER_SPAWN_Y: int := ARENA_HEIGHT / 2
  const STARTING_HP: int := 100
  const DAMAGE: int := 25
  const COOLDOWN_TICKS: int := 15
  const LIFETIME_TICKS: int := 120
  const MAX_PROJECTILES: int := 64

  type i8 = x: int | -0x80 <= x < 0x80
  type i16 = x: int | -0x8000 <= x < 0x8000
  type i32 = x: int | -0x8000_0000 <= x < 0x8000_0000

  datatype PlayerId = A | B

  function Other(player: PlayerId): PlayerId { if player.A? then B else A }

  datatype InputFrame = InputFrame(frame: u32, player: PlayerId, sequence: u32, buttons: u8)
  datatype InputPair = InputPair(a: InputFrame, b: InputFrame)
  datatype Variant = Canonical | DamageBias

  datatype Player = Player(id: PlayerId, x: i32, y: i32, vx: i32, vy: i32, facingX: i8, facingY: i8,
                           hp: i16, score: u16, cooldown: u16)
  datatype Projectile = Projectile(active: bool, id: u32, owner: PlayerId, x: i32, y: i32, vx: i32, vy: i32, ttl: u16)
  datatype WorldState = WorldState(frame: u32, players: seq<Player>, projectiles: seq<Projectile>, nextId: u32)

  type World = w: WorldState | |w.players| == 2 && |w.projectiles| == MAX_PROJECTILES
    witness WorldState(0, seq(2, i => SpawnedPlayer(A)), seq(MAX_PROJECTILES, i => NO_PROJECTILE), 1)

  const NO_PROJECTILE: Projectile := Projectile(false, 0, A, 0, 0, 0, 0, 0)

  function SpawnedPlayer(id: PlayerId): Player {
    Player(id, if id.A? then PLAYER_A_SPAWN_X else PLAYER_B_SPAWN_X, PLAYER_SPAWN_Y, 0, 0,
           if id.A? then 1 else -1, 0, STARTING_HP, 0, 0)
  }

  function InitialWorld(): World {
    WorldState(0, [SpawnedPlayer(A), SpawnedPlayer(B)], seq(MAX_PROJECTILES, i => NO_PROJECTILE), 1)
  }

  // ---- Players ----

  const UP: nat := 0
  const DOWN: nat := 1
  const LEFT: nat := 2
  const RIGHT: nat := 3
  const ATTACK: nat := 4

  predicate HasButton(buttons: u8, button: nat) { buttons / Pow2(button) % 2 == 1 }

  function Axis(negative: bool, positive: bool): (r: int)
    ensures -1 <= r <= 1
  {
    if negative == positive then 0 else if negative then -1 else 1
  }

  function Clamp(value: int, lower: int, upper: int): int
    requires lower <= upper
  {
    if value < lower then lower else if value > upper then upper else value
  }

  function CheckedAdd(left: i32, right: i32): Result<i32> {
    var wide := left + right;
    if -HALF <= wide < HALF then Ok(wide) else Err(ArithmeticOverflow)
  }

  /** One player's share of the first loop of `simulate_frame`: cool down, face, move, clamp. */
  function Steered(p: Player, buttons: u8): Result<Player> {
    var horizontal := Axis(HasButton(buttons, LEFT), HasButton(buttons, RIGHT));
    var vertical := Axis(HasButton(buttons, UP), HasButton(buttons, DOWN));
    var vx: i32, vy: i32 := horizontal * PLAYER_SPEED, vertical * PLAYER_SPEED;
    var x :- CheckedAdd(p.x, vx);
    var y :- CheckedAdd(p.y, vy);
    Ok(p.(
       cooldown := if p.cooldown > 0 then p.cooldown - 1 else 0,
       vx := vx,
       vy := vy,
       facingX := if horizontal != 0 then horizontal else if vertical != 0 then 0 else p.facingX,
       facingY := if horizontal != 0 then 0 else if vertical != 0 then vertical else p.facingY,
       x := Clamp(x, PLAYER_RADIUS, ARENA_WIDTH - PLAYER_RADIUS),
       y := Clamp(y, PLAYER_RADIUS, ARENA_HEIGHT - PLAYER_RADIUS)))
  }

  function ButtonsFor(a: u8, b: u8, player: PlayerId): u8 { if player.A? then a else b }

  function AllSteered(w: World, a: u8, b: u8): Result<World> {
    var p0 :- Steered(w.players[0], ButtonsFor(a, b, w.players[0].id));
    var p1 :- Steered(w.players[1], ButtonsFor(a, b, w.players[1].id));
    Ok(w.(players := [p0, p1]))
  }

  // ---- Spawning ----

  /** The first inactive slot, or |projectiles| when every slot is active. */
  function FirstFree(projectiles: seq<Projectile>): (slot: nat)
    ensures slot <= |projectiles|
    ensures slot < |projectiles| ==> !projectiles[slot].active
    ensures forall i :: 0 <= i < slot ==> projectiles[i].active
  {
    if projectiles == [] || !projectiles[0].active then 0 else 1 + FirstFree(projectiles[1..])
  }

  function Shot(id: u32, p: Player): Projectile {
    Projectile(true, id, p.id,
               Clamp(p.x + p.facingX * SPAWN_OFFSET, PROJECTILE_RADIUS, ARENA_WIDTH - PROJECTILE_RADIUS),
               Clamp(p.y + p.facingY * SPAWN_OFFSET, PROJECTILE_RADIUS, ARENA_HEIGHT - PROJECTILE_RADIUS),
               p.facingX * PROJECTILE_SPEED, p.facingY * PROJECTILE_SPEED, LIFETIME_TICKS)
  }

  predicate Fires(p: Player, buttons: u8) { HasButton(buttons, ATTACK) && p.cooldown == 0 }

  /** A full pool drops the shot silently and leaves the cooldown at zero; an exhausted id counter is an error. */
  function Spawned(w: World, i: nat): Result<World>
    requires i < 2
  {
    var slot := FirstFree(w.projectiles);
    if slot == MAX_PROJECTILES then
      Ok(w)
    else if w.nextId == U32 - 1 then
      Err(ArithmeticOverflow)
    else
      var p := w.players[i];
      Ok(w.(projectiles := w.projectiles[slot := Shot(w.nextId, p)],
            nextId := w.nextId + 1,
            players := w.players[i := p.(cooldown := COOLDOWN_TICKS)]))
  }

  function MaybeSpawned(w: World, i: nat, a: u8, b: u8): Result<World>
    requires i < 2
  {
    if Fires(w.players[i], ButtonsFor(a, b, w.players[i].id)) then Spawned(w, i) else Ok(w)
  }

  function AllSpawned(w: World, a: u8, b: u8): Result<World> {
    var w1 :- MaybeSpawned(w, 0, a, b);
    MaybeSpawned(w1, 1, a, b)
  }

  // ---- The projectile pass ----

  function Moved(p: Projectile): Result<Projectile> {
    var x :- CheckedAdd(p.x, p.vx);
    var y :- CheckedAdd(p.y, p.vy);
    var ttl := if p.ttl > 0 then p.ttl - 1 else 0;
    Ok(p.(x := x, y := y, ttl := ttl,
          active := p.active && ttl != 0 && 0 <= x <= ARENA_WIDTH && 0 <= y <= ARENA_HEIGHT))
  }

  predicate Overlaps(p: Projectile, target: Player) {
    -HIT_EXTENT <= p.x - target.x <= HIT_EXTENT && -HIT_EXTENT <= p.y - target.y <= HIT_EXTENT
  }

  function PlayerIndex(id: PlayerId): nat { if id.A? then 0 else 1 }

  function WrapI16(x: int): i16 { (x + 0x8000) % 0x1_0000 - 0x8000 }

  function Respawned(p: Player): Player {
    p.(x := if p.id.A? then PLAYER_A_SPAWN_X else PLAYER_B_SPAWN_X, y := PLAYER_SPAWN_Y,
       vx := 0, vy := 0, facingX := if p.id.A? then 1 else -1, facingY := 0, hp := STARTING_HP, cooldown := 0)
  }

  /** The players after a projectile of `owner` has hit the other player. */
  function Hit(players: seq<Player>, owner: PlayerId, variant: Variant): (r: seq<Player>)
    requires |players| == 2
    ensures |r| == 2
  {
    var target, scorer := PlayerIndex(Other(owner)), PlayerIndex(owner);
    var hp := WrapI16(players[target].hp - (if variant.DamageBias? then DAMAGE + 1 else DAMAGE));
    var hurt := players[target := players[target].(hp := hp)];
    if hp > 0 then
      hurt
    else
      var scored := hurt[scorer := hurt[scorer].(score := (hurt[scorer].score + 1) % U16)];
      scored[target := Respawned(scored[target])]
  }

  /** One iteration of the projectile pass. */
  function Touched(w: World, slot: nat, variant: Variant): Result<World>
    requires slot < MAX_PROJECTILES
  {
    if !w.projectiles[slot].active then
      Ok(w)
    else
      var moved :- Moved(w.projectiles[slot]);
      if moved.active && Overlaps(moved, w.players[PlayerIndex(Other(moved.owner))]) then
        Ok(w.(projectiles := w.projectiles[slot := moved.(active := false)],
              players := Hit(w.players, moved.owner, variant)))
      else
        Ok(w.(projectiles := w.projectiles[slot := moved]))
  }

  predicate InPool(slots: seq<nat>) { forall i :: 0 <= i < |slots| ==> slots[i] < MAX_PROJECTILES }

  function Passed(w: World, order: seq<nat>, variant: Variant): Result<World>
    requires InPool(order)
    decreases |order|
  {
    if order == [] then
      Ok(w)
    else
      var w1 :- Touched(w, order[0], variant);
      Passed(w1, order[1..], variant)
  }

  function ActiveSlots(projectiles: seq<Projectile>, n: nat): (r: seq<nat>)
    requires n <= |projectiles|
    ensures forall s :: s in r <==> 0 <= s < n && projectiles[s].active
    ensures |r| <= n && (|r| == n <==> forall s :: 0 <= s < n ==> projectiles[s].active)
  {
    if n == 0 then [] else ActiveSlots(projectiles, n - 1) + if projectiles[n - 1].active then [n - 1] else []
  }

  /** The comparator of the pass: ascending stable id, then ascending slot. */
  predicate Precedes(projectiles: seq<Projectile>, left: nat, right: nat)
    requires left < |projectiles| && right < |projectiles|
  {
    var l, r := projectiles[left].id, projectiles[right].id;
    l < r || (l == r && left < right)
  }

  predicate Sorted(projectiles: seq<Projectile>, order: seq<nat>) {
    && (forall i :: 0 <= i < |order| ==> order[i] < |projectiles|)
    && (forall i, j :: 0 <= i < j < |order| ==> Precedes(projectiles, order[i], order[j]))
  }

  function Inserted(projectiles: seq<Projectile>, order: seq<nat>, slot: nat): (r: seq<nat>)
    requires Sorted(projectiles, order) && slot < |projectiles| && slot !in order
    ensures Sorted(projectiles, r) && |r| == |order| + 1
    ensures forall s :: s in r <==> s == slot || s in order
  {
    if order == [] then
      [slot]
    else if Precedes(projectiles, slot, order[0]) then
      [slot] + order
    else
      var rest := Inserted(projectiles, order[1..], slot);
      assert forall s :: s in order <==> s == order[0] || s in order[1..];
      assert forall i :: 0 <= i < |rest| ==> rest[i] in rest;
      [order[0]] + rest
  }

  predicate Distinct(s: seq<nat>) { forall i, j :: 0 <= i < j < |s| ==> s[i] != s[j] }

  /** `std::sort` over the active slots: the only sorted arrangement of them (see SortIsUnique). */
  function SortedSlots(projectiles: seq<Projectile>, slots: seq<nat>): (r: seq<nat>)
    requires Distinct(slots) && forall s :: s in slots ==> s < |projectiles|
    ensures Sorted(projectiles, r) && |r| == |slots|
    ensures forall s :: s in r <==> s in slots
  {
    if slots == [] then
      []
    else
      var n := |slots| - 1;
      assert forall s :: s in slots <==> s == slots[n] || s in slots[..n];
      assert slots[n] !in slots[..n];
      Inserted(projectiles, SortedSlots(projectiles, slots[..n]), slots[n])
  }

  lemma SortIsUnique(projectiles: seq<Projectile>, s: seq<nat>, t: seq<nat>)
    requires Sorted(projectiles, s) && Sorted(projectiles, t)
    requires forall x :: x in s <==> x in t
    ensures s == t
  {
    if s == [] {
      assert forall i :: 0 <= i < |t| ==> t[i] in t;
    } else {
      assert s[0] in t;
      assert t[0] in s;
      assert s[0] == t[0];
      assert forall x :: x in s[1..] <==> x in s && x != s[0];
      assert forall x :: x in t[1..] <==> x in t && x != t[0];
      SortIsUnique(projectiles, s[1..], t[1..]);
    }
  }

  lemma ActiveSlotsAscend(projectiles: seq<Projectile>, n: nat)
    requires n <= |projectiles|
    ensures forall i, j :: 0 <= i < j < |ActiveSlots(projectiles, n)| ==>
        ActiveSlots(projectiles, n)[i] < ActiveSlots(projectiles, n)[j]
  {
    if n > 0 {
      ActiveSlotsAscend(projectiles, n - 1);
      var prefix := ActiveSlots(projectiles, n - 1);
      assert forall i :: 0 <= i < |prefix| ==> prefix[i] in prefix;
    }
  }

  function PassOrder(projectiles: seq<Projectile>): (r: seq<nat>)
    ensures Sorted(projectiles, r)
    ensures forall s :: s in r <==> 0 <= s < |projectiles| && projectiles[s].active
  {
    ActiveSlotsAscend(projectiles, |projectiles|);
    SortedSlots(projectiles, ActiveSlots(projectiles, |projectiles|))
  }

  // ---- The transition ----

  /** The body of `simulate_frame` after its argument check. It sees inputs only as buttons. */
  function Step(w: World, a: u8, b: u8, variant: Variant): Result<World> {
    var steered :- AllSteered(w, a, b);
    var spawned :- AllSpawned(steered, a, b);
    var passed :- Passed(spawned, PassOrder(spawned.projectiles), variant);
    Ok(passed.(frame := NextFrame(w.frame)))
  }

  predicate Matches(inputs: InputPair, frame: u32) {
    && inputs.a.frame == frame && inputs.b.frame == frame
    && inputs.a.player.A? && inputs.b.player.B?
  }

  function Simulated(before: World, frame: u32, inputs: InputPair, variant: Variant): Result<World> {
    if before.frame != frame || !Matches(inputs, frame) then
      Err(FrameMismatch)
    else
      Step(before, inputs.a.buttons, inputs.b.buttons, variant)
  }

  method SteerPlayers(before: World, a: u8, b: u8) returns (r: Result<World>)
    ensures r == AllSteered(before, a, b)
  {
    var world: World := before;
    for i := 0 to 2
      invariant world == before.(players := world.players)
      invariant i == 0 ==> world == before
      invariant i >= 1 ==> Steered(before.players[0], ButtonsFor(a, b, before.players[0].id)) == Ok(world.players[0])
      invariant i == 1 ==> world.players[1] == before.players[1]
      invariant i == 2 ==> Steered(before.players[1], ButtonsFor(a, b, before.players[1].id)) == Ok(world.players[1])
    {
      var steered := Steered(world.players[i], ButtonsFor(a, b, world.players[i].id));
      if steered.Err? {
        return Err(steered.error);
      }
      world := world.(players := world.players[i := steered.value]);
    }
    assert world.players == [world.players[0], world.players[1]];
    return Ok(world);
  }

  method SpawnShots(before: World, a: u8, b: u8) returns (r: Result<World>)
    ensures r == AllSpawned(before, a, b)
  {
    var world: World := before;
    for i := 0 to 2
      invariant i == 0 ==> world == before
      invariant i == 1 ==> MaybeSpawned(before, 0, a, b) == Ok(world)
      invariant i == 2 ==> AllSpawned(before, a, b) == Ok(world)
    {
      if Fires(world.players[i], ButtonsFor(a, b, world.players[i].id)) {
        var spawned := Spawned(world, i);
        if spawned.Err? {
          return Err(spawned.error);
        }
        world := spawned.value;
      }
    }
    return Ok(world);
  }

  method OrderProjectiles(projectiles: seq<Projectile>) returns (order: seq<nat>)
    ensures order == PassOrder(projectiles)
  {
    var active: seq<nat> := [];
    for index := 0 to |projectiles|
      invariant active == ActiveSlots(projectiles, index)
    {
      if projectiles[index].active {
        active := active + [index];
      }
    }
    ActiveSlotsAscend(projectiles, |projectiles|);
    order := SortedSlots(projectiles, active);
  }

  method RunProjectiles(before: World, variant: Variant) returns (r: Result<World>)
    ensures r == Passed(before, PassOrder(before.projectiles), variant)
  {
    hide Touched, PassOrder;
    var order := OrderProjectiles(before.projectiles);
    var world: World := before;
    for k := 0 to |order|
      invariant InPool(order)
      invariant Passed(before, order, variant) == Passed(world, order[k..], variant)
    {
      assert order[k..][0] == order[k] && order[k..][1..] == order[k + 1..];
      var touched := Touched(world, order[k], variant);
      if touched.Err? {
        return Err(touched.error);
      }
      world := touched.value;
    }
    return Ok(world);
  }

  method SimulateFrame(before: World, frame: u32, inputs: InputPair, variant: Variant) returns (r: Result<World>)
    ensures r == Simulated(before, frame, inputs, variant)
  {
    if before.frame != frame || !Matches(inputs, frame) {
      return Err(FrameMismatch);
    }
    var steered := SteerPlayers(before, inputs.a.buttons, inputs.b.buttons);
    if steered.Err? {
      return Err(steered.error);
    }
    var spawned := SpawnShots(steered.value, inputs.a.buttons, inputs.b.buttons);
    if spawned.Err? {
      return Err(spawned.error);
    }
    var passed := RunProjectiles(spawned.value, variant);
    if passed.Err? {
      return Err(passed.error);
    }
    return Ok(passed.value.(frame := NextFrame(frame)));
  }
}
