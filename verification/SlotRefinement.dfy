/**
 * The 64-slot pool as an implementation of a map from stable id to shot.
 * Slots, their order and the stale contents of inactive ones are invisible in the map.
 */
module SlotRefinement {
  import opened Core
  import opened Simulation
  import opened SimulationLaws

  datatype Flight = Flight(owner: PlayerId, x: i32, y: i32, vx: i32, vy: i32, ttl: u16)

  datatype IdWorld = IdWorld(frame: u32, players: seq<Player>, flights: map<u32, Flight>, nextId: u32)

  type Arena = w: IdWorld | |w.players| == 2
    witness IdWorld(0, [SpawnedPlayer(A), SpawnedPlayer(B)], map[], 1)

  function FlightOf(p: Projectile): Flight { Flight(p.owner, p.x, p.y, p.vx, p.vy, p.ttl) }

  // ---- The transition over ids alone ----

  function IdSteered(w: Arena, a: u8, b: u8): Result<Arena> {
    var p0 :- Steered(w.players[0], ButtonsFor(a, b, w.players[0].id));
    var p1 :- Steered(w.players[1], ButtonsFor(a, b, w.players[1].id));
    Ok(w.(players := [p0, p1]))
  }

  function IdSpawned(w: Arena, i: nat, a: u8, b: u8): Result<Arena>
    requires i < 2
  {
    var p := w.players[i];
    if !Fires(p, ButtonsFor(a, b, p.id)) || |w.flights| >= MAX_PROJECTILES then
      Ok(w)
    else if w.nextId == U32 - 1 then
      Err(ArithmeticOverflow)
    else
      Ok(w.(flights := w.flights[w.nextId := FlightOf(Shot(w.nextId, p))],
            nextId := w.nextId + 1,
            players := w.players[i := p.(cooldown := COOLDOWN_TICKS)]))
  }

  /** Move one flight; it leaves the map when it expires, exits the arena or hits. */
  function IdTouched(w: Arena, id: u32, variant: Variant): Result<Arena>
    requires id in w.flights
  {
    var f := w.flights[id];
    var moved :- Moved(Projectile(true, id, f.owner, f.x, f.y, f.vx, f.vy, f.ttl));
    if !moved.active then
      Ok(w.(flights := w.flights - {id}))
    else if Overlaps(moved, w.players[PlayerIndex(Other(f.owner))]) then
      Ok(w.(flights := w.flights - {id}, players := Hit(w.players, f.owner, variant)))
    else
      Ok(w.(flights := w.flights[id := FlightOf(moved)]))
  }

  ghost function Least(s: set<u32>): (r: u32)
    requires s != {}
    ensures r in s && forall x :: x in s ==> r <= x
  {
    var x :| x in s;
    var rest := s - {x};
    assert s == rest + {x};
    if rest == {} then
      x
    else
      var y := Least(rest);
      if x <= y then x else y
  }

  /** Visit `ids` in ascending order. */
  ghost function IdPassed(w: Arena, ids: set<u32>, variant: Variant): Result<Arena>
    requires ids <= w.flights.Keys
    decreases |ids|
  {
    if ids == {} then
      Ok(w)
    else
      var id := Least(ids);
      var w1 :- IdTouched(w, id, variant);
      IdPassed(w1, ids - {id}, variant)
  }

  ghost function IdStep(w: Arena, a: u8, b: u8, variant: Variant): Result<Arena> {
    var steered :- IdSteered(w, a, b);
    var first :- IdSpawned(steered, 0, a, b);
    var second :- IdSpawned(first, 1, a, b);
    var passed :- IdPassed(second, second.flights.Keys, variant);
    Ok(passed.(frame := NextFrame(w.frame)))
  }

  // ---- The abstraction ----

  /** The slot of the first `n` that carries the active id `id`, or `n`. */
  function SlotOf(projectiles: seq<Projectile>, n: nat, id: u32): (slot: nat)
    requires n <= |projectiles|
    ensures slot <= n
    ensures slot < n ==> projectiles[slot].active && projectiles[slot].id == id
    ensures slot == n ==> forall i :: 0 <= i < n && projectiles[i].active ==> projectiles[i].id != id
  {
    if n == 0 then
      0
    else
      var slot := SlotOf(projectiles, n - 1, id);
      if slot < n - 1 then slot
      else if projectiles[n - 1].active && projectiles[n - 1].id == id then n - 1 else n
  }

  function Flights(projectiles: seq<Projectile>, n: nat): (r: map<u32, Flight>)
    requires n <= |projectiles| && DistinctIds(projectiles)
    ensures forall id :: id in r <==> SlotOf(projectiles, n, id) < n
    ensures forall id :: id in r ==> r[id] == FlightOf(projectiles[SlotOf(projectiles, n, id)])
  {
    if n == 0 then
      map[]
    else if projectiles[n - 1].active then
      var r := Flights(projectiles, n - 1);
      assert SlotOf(projectiles, n - 1, projectiles[n - 1].id) == n - 1;
      r[projectiles[n - 1].id := FlightOf(projectiles[n - 1])]
    else
      Flights(projectiles, n - 1)
  }

  lemma FlightsGrow(projectiles: seq<Projectile>, n: nat)
    requires 0 < n <= |projectiles| && DistinctIds(projectiles)
    ensures |Flights(projectiles, n)| == |Flights(projectiles, n - 1)| + if projectiles[n - 1].active then 1 else 0
  {
    hide FlightOf, SlotOf, DistinctIds;
    var r := Flights(projectiles, n - 1);
    var p := projectiles[n - 1];
    if p.active {
      assert SlotOf(projectiles, n - 1, p.id) == n - 1 by { FirstHolder(projectiles, n - 1); }
      assert p.id !in r;
    }
  }

  lemma FirstHolder(projectiles: seq<Projectile>, i: nat)
    requires i < |projectiles| && DistinctIds(projectiles) && projectiles[i].active
    ensures SlotOf(projectiles, i, projectiles[i].id) == i
  {
    var slot := SlotOf(projectiles, i, projectiles[i].id);
    if slot < i {
      assert false;
    }
  }

  lemma ActiveGrow(projectiles: seq<Projectile>, n: nat)
    requires 0 < n <= |projectiles|
    ensures |ActiveSlots(projectiles, n)| == |ActiveSlots(projectiles,
      n - 1)| + if projectiles[n - 1].active then 1 else 0
  {
  }

  lemma NothingYet(projectiles: seq<Projectile>)
    requires DistinctIds(projectiles)
    ensures |Flights(projectiles, 0)| == |ActiveSlots(projectiles, 0)| == 0
  {
  }

  lemma {:induction false} CountFlights(projectiles: seq<Projectile>, n: nat)
    requires n <= |projectiles| && DistinctIds(projectiles)
    ensures |Flights(projectiles, n)| == |ActiveSlots(projectiles, n)|
  {
    hide DistinctIds, Flights, ActiveSlots, SlotOf;
    NothingYet(projectiles);
    if n > 0 {
      CountFlights(projectiles, n - 1);
      FlightsGrow(projectiles, n);
      ActiveGrow(projectiles, n);
    }
  }

  lemma FlightAt(projectiles: seq<Projectile>, n: nat, i: nat)
    requires i < n <= |projectiles| && DistinctIds(projectiles) && projectiles[i].active
    ensures SlotOf(projectiles, n, projectiles[i].id) == i
    ensures projectiles[i].id in Flights(projectiles, n)
    ensures Flights(projectiles, n)[projectiles[i].id] == FlightOf(projectiles[i])
  {
    var slot := SlotOf(projectiles, n, projectiles[i].id);
    assert slot < n;
    assert slot == i;
  }

  function Abstract(w: World): Arena
    requires DistinctIds(w.projectiles)
  {
    IdWorld(w.frame, w.players, Flights(w.projectiles, MAX_PROJECTILES), w.nextId)
  }

  function AbstractResult(r: Result<World>): Result<Arena>
    requires r.Ok? ==> DistinctIds(r.value.projectiles)
  {
    if r.Ok? then Ok(Abstract(r.value)) else Err(r.error)
  }

  /** Active ids are distinct and below the counter. */
  predicate IdsFresh(w: World) {
    && DistinctIds(w.projectiles)
    && forall i :: 0 <= i < MAX_PROJECTILES && w.projectiles[i].active ==> w.projectiles[i].id < w.nextId
  }

  lemma StillDistinct(projectiles: seq<Projectile>, slot: nat, p: Projectile)
    requires slot < |projectiles| && DistinctIds(projectiles)
    requires forall i :: 0 <= i < |projectiles| && i != slot && projectiles[i].active ==> projectiles[i].id != p.id
    ensures DistinctIds(projectiles[slot := p])
  {
  }

  lemma OthersKeepFlying(projectiles: seq<Projectile>, slot: nat, p: Projectile, id: u32)
    requires slot < |projectiles| && DistinctIds(projectiles) && DistinctIds(projectiles[slot := p])
    requires projectiles[slot].active ==> projectiles[slot].id == p.id
    requires id != p.id
    ensures var before, after := Flights(projectiles, |projectiles|), Flights(projectiles[slot := p], |projectiles|);
      (id in after <==> id in before) && (id in before ==> after[id] == before[id])
  {
    hide Flights, FlightOf, SlotOf;
    OtherSlots(projectiles, |projectiles|, slot, p, id);
  }

  /** Filling a slot with `p`, whose id is unused elsewhere, sets exactly that id. */
  lemma ReplaceFlight(projectiles: seq<Projectile>, slot: nat, p: Projectile)
    requires slot < |projectiles| && DistinctIds(projectiles)
    requires projectiles[slot].active ==> projectiles[slot].id == p.id
    requires !projectiles[slot].active ==> p.id !in Flights(projectiles, |projectiles|)
    ensures DistinctIds(projectiles[slot := p])
    ensures var before, after := Flights(projectiles, |projectiles|), Flights(projectiles[slot := p], |projectiles|);
      after == if p.active then before[p.id := FlightOf(p)] else before - {p.id}
  {
    hide Flights, FlightOf, SlotOf, DistinctIds;
    var n := |projectiles|;
    var filled := projectiles[slot := p];
    OnlyHolder(projectiles, slot, p.id);
    StillDistinct(projectiles, slot, p);
    if p.active {
      FlightAt(filled, n, slot);
    } else {
      NoHolder(filled, p.id);
    }
    SameButOne(projectiles, filled, slot, p);
  }

  lemma SameButOne(projectiles: seq<Projectile>, filled: seq<Projectile>, slot: nat, p: Projectile)
    requires slot < |projectiles| && DistinctIds(projectiles) && DistinctIds(filled)
    requires filled == projectiles[slot := p]
    requires projectiles[slot].active ==> projectiles[slot].id == p.id
    requires p.active ==> p.id in Flights(filled, |filled|) && Flights(filled, |filled|)[p.id] == FlightOf(p)
    requires !p.active ==> p.id !in Flights(filled, |filled|)
    ensures var before, after := Flights(projectiles, |projectiles|), Flights(filled, |projectiles|);
      after == if p.active then before[p.id := FlightOf(p)] else before - {p.id}
  {
    hide Flights, FlightOf, SlotOf, DistinctIds;
    var before, after := Flights(projectiles, |projectiles|), Flights(filled, |projectiles|);
    forall id: u32 | id != p.id
      ensures (id in after <==> id in before) && (id in before ==> after[id] == before[id])
    {
      OthersKeepFlying(projectiles, slot, p, id);
    }
  }

  lemma OnlyHolder(projectiles: seq<Projectile>, slot: nat, id: u32)
    requires slot < |projectiles| && DistinctIds(projectiles)
    requires projectiles[slot].active ==> projectiles[slot].id == id
    requires !projectiles[slot].active ==> id !in Flights(projectiles, |projectiles|)
    ensures forall i :: 0 <= i < |projectiles| && i != slot && projectiles[i].active ==> projectiles[i].id != id
  {
  }

  lemma NoHolder(projectiles: seq<Projectile>, id: u32)
    requires DistinctIds(projectiles)
    requires forall i :: 0 <= i < |projectiles| && projectiles[i].active ==> projectiles[i].id != id
    ensures id !in Flights(projectiles, |projectiles|)
  {
    hide Flights;
    var slot := SlotOf(projectiles, |projectiles|, id);
    assert slot == |projectiles|;
  }

  lemma {:induction false} OtherSlots(projectiles: seq<Projectile>, n: nat, slot: nat, p: Projectile, id: u32)
    requires n <= |projectiles| && slot < |projectiles| && id != p.id
    requires projectiles[slot].active ==> projectiles[slot].id != id
    ensures SlotOf(projectiles[slot := p], n, id) == SlotOf(projectiles, n, id)
  {
    if n > 0 {
      OtherSlots(projectiles, n - 1, slot, p, id);
    }
  }

  lemma SpawnRefines(w: World, i: nat, a: u8, b: u8)
    requires i < 2 && IdsFresh(w)
    ensures MaybeSpawned(w, i, a, b).Ok? ==> IdsFresh(MaybeSpawned(w, i, a, b).value)
    ensures IdSpawned(Abstract(w), i, a, b) == AbstractResult(MaybeSpawned(w, i, a, b))
  {
    hide Flights, Shot, FlightOf;
    var p := w.players[i];
    var slot := FirstFree(w.projectiles);
    PoolIsFull(w);
    if Fires(p, ButtonsFor(a, b, p.id)) && slot < MAX_PROJECTILES && w.nextId < U32 - 1 {
      NoHolder(w.projectiles, w.nextId);
      ShotIsFresh(w.nextId, p);
      ReplaceFlight(w.projectiles, slot, Shot(w.nextId, p));
    }
  }

  lemma PoolIsFull(w: World)
    requires DistinctIds(w.projectiles)
    ensures |Abstract(w).flights| >= MAX_PROJECTILES <==> FirstFree(w.projectiles) == MAX_PROJECTILES
  {
    hide Flights;
    CountFlights(w.projectiles, MAX_PROJECTILES);
  }

  lemma ShotIsFresh(id: u32, p: Player)
    ensures Shot(id, p).active && Shot(id, p).id == id
  {
  }

  lemma TouchRefines(w: World, slot: nat, variant: Variant)
    requires slot < MAX_PROJECTILES && w.projectiles[slot].active && DistinctIds(w.projectiles)
    ensures Touched(w, slot, variant).Ok? ==> DistinctIds(Touched(w, slot, variant).value.projectiles)
    ensures w.projectiles[slot].id in Abstract(w).flights
    ensures IdTouched(Abstract(w), w.projectiles[slot].id, variant) == AbstractResult(Touched(w, slot, variant))
  {
    hide Flights, Hit, Overlaps;
    var p := w.projectiles[slot];
    FlightAt(w.projectiles, MAX_PROJECTILES, slot);
    if Moved(p).Ok? {
      var q := Touched(w, slot, variant).value.projectiles[slot];
      ReplaceFlight(w.projectiles, slot, q);
    }
  }

  ghost function IdsOf(projectiles: seq<Projectile>, order: seq<nat>): set<u32>
    requires forall i :: 0 <= i < |order| ==> order[i] < |projectiles|
  {
    set i | 0 <= i < |order| :: projectiles[order[i]].id
  }

  predicate AllActive(projectiles: seq<Projectile>, order: seq<nat>)
    requires forall i :: 0 <= i < |order| ==> order[i] < |projectiles|
  {
    forall i :: 0 <= i < |order| ==> projectiles[order[i]].active
  }

  lemma LeastIsFirst(projectiles: seq<Projectile>, order: seq<nat>)
    requires order != [] && Sorted(projectiles, order) && AllActive(projectiles, order) && DistinctIds(projectiles)
    ensures IdsOf(projectiles, order) != {}
    ensures Least(IdsOf(projectiles, order)) == projectiles[order[0]].id
    ensures IdsOf(projectiles, order) - {projectiles[order[0]].id} == IdsOf(projectiles, order[1..])
  {
    var ids := IdsOf(projectiles, order);
    assert projectiles[order[0]].id in ids;
    forall i | 0 < i < |order| ensures projectiles[order[0]].id < projectiles[order[i]].id {
      assert Precedes(projectiles, order[0], order[i]);
    }
    forall id | id in ids && id != projectiles[order[0]].id ensures id in IdsOf(projectiles, order[1..]) {
      var i :| 0 <= i < |order| && projectiles[order[i]].id == id;
      assert order[1..][i - 1] == order[i];
    }
    forall id | id in IdsOf(projectiles, order[1..]) ensures id in ids && id != projectiles[order[0]].id {
      var i :| 0 <= i < |order[1..]| && projectiles[order[1..][i]].id == id;
      assert order[1..][i] == order[i + 1];
    }
  }

  lemma {:induction false} PassRefines(w: World, order: seq<nat>, variant: Variant)
    requires InPool(order) && DistinctIds(w.projectiles)
    requires Sorted(w.projectiles, order) && AllActive(w.projectiles, order)
    ensures Passed(w, order, variant).Ok? ==> DistinctIds(Passed(w, order, variant).value.projectiles)
    ensures IdsOf(w.projectiles, order) <= Abstract(w).flights.Keys
    ensures IdPassed(Abstract(w), IdsOf(w.projectiles, order), variant) == AbstractResult(Passed(w, order, variant))
    decreases |order|
  {
    hide Abstract;
    VisitedAreFlying(w, order);
    if order != [] {
      TouchRefines(w, order[0], variant);
      LeastIsFirst(w.projectiles, order);
      var touched := Touched(w, order[0], variant);
      if touched.Ok? {
        TouchKeepsOthers(w, order, variant);
        PassRefines(touched.value, order[1..], variant);
      }
    }
  }

  lemma VisitedAreFlying(w: World, order: seq<nat>)
    requires InPool(order) && DistinctIds(w.projectiles) && AllActive(w.projectiles, order)
    ensures IdsOf(w.projectiles, order) <= Abstract(w).flights.Keys
    ensures order != [] ==> w.projectiles[order[0]].id in Abstract(w).flights
    ensures order == [] ==> IdsOf(w.projectiles, order) == {}
  {
  }

  lemma TouchKeepsOthers(w: World, order: seq<nat>, variant: Variant)
    requires order != [] && InPool(order) && Sorted(w.projectiles, order) && AllActive(w.projectiles, order)
    requires Touched(w, order[0], variant).Ok?
    ensures var r := Touched(w, order[0], variant).value;
      && Sorted(r.projectiles, order[1..]) && AllActive(r.projectiles, order[1..])
      && IdsOf(r.projectiles, order[1..]) == IdsOf(w.projectiles, order[1..])
  {
    var r := Touched(w, order[0], variant).value;
    forall i | 0 < i < |order| ensures r.projectiles[order[i]] == w.projectiles[order[i]] {
      assert Precedes(w.projectiles, order[0], order[i]);
    }
    forall i | 0 <= i < |order[1..]| ensures r.projectiles[order[1..][i]] == w.projectiles[order[1..][i]] {
      assert order[1..][i] == order[i + 1];
    }
  }

  /** First-free-slot allocation and the sorted pass compute exactly the id-keyed transition. */
  lemma StepRefinesIdStep(w: World, a: u8, b: u8, variant: Variant)
    requires IdsFresh(w)
    ensures Step(w, a, b, variant).Ok? ==> DistinctIds(Step(w, a, b, variant).value.projectiles)
    ensures IdStep(Abstract(w), a, b, variant) == AbstractResult(Step(w, a, b, variant))
  {
    hide Steered, MaybeSpawned, Passed, PassOrder, Flights, IdSpawned, IdPassed;
    var steered := AllSteered(w, a, b);
    if steered.Ok? {
      SpawnRefines(steered.value, 0, a, b);
      var first := MaybeSpawned(steered.value, 0, a, b);
      if first.Ok? {
        SpawnRefines(first.value, 1, a, b);
        var second := MaybeSpawned(first.value, 1, a, b);
        if second.Ok? {
          var order := PassOrder(second.value.projectiles);
          assert forall i :: 0 <= i < |order| ==> order[i] in order;
          PassRefines(second.value, order, variant);
          OrderCoversFlights(second.value);
        }
      }
    }
  }

  lemma OrderCoversFlights(w: World)
    requires DistinctIds(w.projectiles)
    ensures IdsOf(w.projectiles, PassOrder(w.projectiles)) == Abstract(w).flights.Keys
  {
    hide PassOrder;
    var order := PassOrder(w.projectiles);
    assert forall i :: 0 <= i < |order| ==> order[i] in order;
    forall id | id in Abstract(w).flights ensures id in IdsOf(w.projectiles, order) {
      var s :| 0 <= s < MAX_PROJECTILES && w.projectiles[s].active && w.projectiles[s].id == id;
      assert s in order;
    }
  }

  /** Two worlds that differ only in slot placement and stale slots step to worlds that differ only there. */
  lemma SlotsAreInvisible(v: World, w: World, a: u8, b: u8, variant: Variant)
    requires IdsFresh(v) && IdsFresh(w) && Abstract(v) == Abstract(w)
    ensures var v', w' := Step(v, a, b, variant), Step(w, a, b, variant);
      && (v'.Ok? <==> w'.Ok?)
      && (v'.Ok? ==> DistinctIds(v'.value.projectiles) && DistinctIds(w'.value.projectiles)
                     && Abstract(v'.value) == Abstract(w'.value))
  {
    hide Step, Abstract, IdStep;
    StepRefinesIdStep(v, a, b, variant);
    StepRefinesIdStep(w, a, b, variant);
  }

  // ---- Whole histories ----

  ghost function IdFolded(w: Arena, script: seq<Buttons>, variant: Variant): Result<Arena> {
    if script == [] then
      Ok(w)
    else
      var last := |script| - 1;
      var before :- IdFolded(w, script[..last], variant);
      IdStep(before, script[last].a, script[last].b, variant)
  }

  lemma SoundIsFresh(w: World)
    requires Sound(w)
    ensures IdsFresh(w)
  {
  }

  /** Over any input history from a sound world, the pool computes the id-keyed fold and cannot fail. */
  lemma {:induction false} FoldRefinesIdFold(w: World, script: seq<Buttons>, variant: Variant)
    requires Sound(w) && w.nextId + 2 * |script| < U32
    ensures IdsFresh(w) && Folded(w, script, variant).Ok?
    ensures var r := Folded(w, script, variant).value;
      Sound(r) && r.nextId <= w.nextId + 2 * |script| && IdsFresh(r)
        && IdFolded(Abstract(w), script, variant) == Ok(Abstract(r))
  {
    hide Step, Sound, IdStep, Abstract, IdsFresh;
    SoundIsFresh(w);
    if script != [] {
      var last := |script| - 1;
      FoldRefinesIdFold(w, script[..last], variant);
      var before := Folded(w, script[..last], variant).value;
      StepIsTotal(before, script[last].a, script[last].b, variant);
      StepRefinesIdStep(before, script[last].a, script[last].b, variant);
      SoundIsFresh(Step(before, script[last].a, script[last].b, variant).value);
    }
  }
}
