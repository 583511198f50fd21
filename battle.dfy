/**
 * The units in play as one value: each unit card on the board under an id, and which unit
 * stands on each tile (Tile.ActiveCard). The stat changes are those of Card.cs (TakeDamage,
 * Heal, SetProvoked, LowerEnergy); the action and spell resolutions are written over this.
 */
module Battle {
  import opened Wrappers
  import opened Geometry
  import opened UnitStats

  /** Stands for a reference to a unit card object; two equal ids are the same object. */
  type UnitId = nat

  /**
   * A unit card. `tile` is its CurrentTile: it keeps pointing at the tile after death,
   * since TriggerDeath empties the tile but not the card's own field.
   */
  datatype Unit = Unit(
    isPlayer1: bool,
    power: int,
    vitals: Vitals,
    provoked: bool,
    provoker: Option<UnitId>,
    tile: Option<Pos>)

  datatype World = World(units: map<UnitId, Unit>, occupant: map<Pos, UnitId>)

  /**
   * Every occupied tile is on the board and its occupant knows it stands there; every unit
   * in play has a tile, and a provoked unit knows its provoker.
   */
  predicate Valid(w: World) {
    (forall p :: p in w.occupant ==>
      OnBoard(p) && w.occupant[p] in w.units && w.units[w.occupant[p]].tile == Some(p))
    && (forall id :: id in w.units ==> w.units[id].tile.Some? && OnBoard(w.units[id].tile.value))
    && (forall id :: id in w.units && w.units[id].provoked ==>
      w.units[id].provoker.Some? && w.units[id].provoker.value in w.units)
  }

  /** The unit standing on p, if any (Grid[x, y].ActiveCard). */
  function OccupantAt(w: World, p: Pos): Option<UnitId> {
    if p in w.occupant then Some(w.occupant[p]) else None
  }

  function TileOf(w: World, id: UnitId): Pos
    requires Valid(w) && id in w.units
  {
    w.units[id].tile.value
  }

  /** The unit still stands on the tile it points at (it has not died). */
  predicate OnItsTile(w: World, u: UnitId)
    requires Valid(w) && u in w.units
  {
    OccupantAt(w, TileOf(w, u)) == Some(u)
  }

  /**
   * TakeDamage: health drops by exactly the amount; on death (health at most 0, or
   * DeathTouch) the unit's tile is emptied.
   */
  function TakeDamage(w: World, id: UnitId, amount: int, deathTouch: bool): (r: World)
    requires Valid(w) && id in w.units
  {
    var u := w.units[id];
    var units := w.units[id := u.(vitals := UnitStats.TakeDamage(u.vitals, amount))];
    if Dies(u.vitals, amount, deathTouch) then World(units, w.occupant - {u.tile.value})
    else World(units, w.occupant)
  }

  /** Heal: health rises by the amount, clamped into [0, maxHealth]. */
  function HealUnit(w: World, id: UnitId, amount: int): (r: World)
    requires id in w.units
  {
    var u := w.units[id];
    w.(units := w.units[id := u.(vitals := UnitStats.Heal(u.vitals, amount))])
  }

  /** SetProvoked(true, provoker). */
  function Provoke(w: World, id: UnitId, provoker: UnitId): (r: World)
    requires id in w.units
  {
    var u := w.units[id];
    w.(units := w.units[id := u.(provoked := true, provoker := Some(provoker))])
  }

  function SpendEnergy(w: World, id: UnitId, amount: int): (r: World)
    requires id in w.units
  {
    var u := w.units[id];
    w.(units := w.units[id := u.(vitals := UnitStats.LowerEnergy(u.vitals, amount))])
  }

  function Health(w: World, id: UnitId): int
    requires id in w.units
  {
    w.units[id].vitals.health
  }

  /**
   * TakeDamage changes only the hit unit's health, and removes it from its tile exactly
   * when the hit is lethal; everything else stays.
   */
  lemma TakeDamageEffect(w: World, id: UnitId, amount: int, deathTouch: bool)
    requires Valid(w) && id in w.units
    ensures var r := TakeDamage(w, id, amount, deathTouch);
      r.units.Keys == w.units.Keys
      && Health(r, id) == Health(w, id) - amount
      && r.units[id] == w.units[id].(vitals := r.units[id].vitals)
      && r.units[id].vitals.maxHealth == w.units[id].vitals.maxHealth
      && (forall other :: other in w.units && other != id ==> r.units[other] == w.units[other])
      && (TileOf(w, id) in r.occupant <==> TileOf(w, id) in w.occupant && !Dies(w.units[id].vitals, amount, deathTouch))
      && (forall p :: p != TileOf(w, id) ==> OccupantAt(r, p) == OccupantAt(w, p))
  {
  }

  /** Heal and Provoke touch only their target, and never the tiles. */
  lemma HealProvokeEffect(w: World, id: UnitId, amount: int, provoker: UnitId)
    requires id in w.units
    ensures var r := HealUnit(w, id, amount);
      r.occupant == w.occupant && r.units.Keys == w.units.Keys
      && r.units[id].vitals == UnitStats.Heal(w.units[id].vitals, amount)
      && (forall other :: other in w.units && other != id ==> r.units[other] == w.units[other])
    ensures var r := Provoke(w, id, provoker);
      r.occupant == w.occupant && r.units.Keys == w.units.Keys
      && r.units[id].provoked && r.units[id].provoker == Some(provoker)
      && r.units[id].vitals == w.units[id].vitals
      && (forall other :: other in w.units && other != id ==> r.units[other] == w.units[other])
  {
  }

  /** Every stat change keeps the board consistent. */
  lemma ValidPreserved(w: World, id: UnitId, amount: int, deathTouch: bool, provoker: UnitId)
    requires Valid(w) && id in w.units
    ensures Valid(TakeDamage(w, id, amount, deathTouch))
    ensures Valid(HealUnit(w, id, amount))
    ensures Valid(SpendEnergy(w, id, amount))
    ensures provoker in w.units ==> Valid(Provoke(w, id, provoker))
  {
    var r := TakeDamage(w, id, amount, deathTouch);
    forall p | p in r.occupant
      ensures OnBoard(p) && r.occupant[p] in r.units && r.units[r.occupant[p]].tile == Some(p)
    {
      assert p in w.occupant;
    }
  }
}
