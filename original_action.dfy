/**
 * Assets/Scripts/Action.cs, the first revision of a unit's action: one hit on the clicked tile
 * (Heal, or else Damage, where Cleave spreads either one over every valid tile and Drain heals
 * the actor by the damage counted), then Provoke, the Momentum refund and the energy cost, as
 * well as the DrawCard shortcut, the mouse-up guard and the valid tiles SetRange stores. A null
 * dereference of the source is an outcome with `threw` set; the effects before it stay.
 */
module OriginalAction {
  import opened Wrappers
  import opened Geometry
  import opened CardData
  import UnitStats
  import opened Battle
  import ActionSystem
  import LegacyAction

  /** The world after PerformAction, and whether it stopped on a null card. */
  datatype Outcome = Outcome(world: World, threw: bool)

  /** No tile gains an occupant, and a tile that keeps one keeps the same one. */
  predicate Shrinks(a: World, b: World) {
    forall p :: p in b.occupant ==> p in a.occupant && b.occupant[p] == a.occupant[p]
  }

  /** Card.TakeDamage(int) as this revision calls it: a hit without DeathTouch. */
  function Hit(w: World, id: UnitId, amount: int): (r: World)
    requires Valid(w) && id in w.units
    ensures Valid(r) && r.units.Keys == w.units.Keys && Shrinks(w, r)
    ensures r.units[id] == w.units[id].(vitals := UnitStats.TakeDamage(w.units[id].vitals, amount))
    ensures forall u :: u in w.units && u != id ==> r.units[u] == w.units[u]
    ensures forall p :: p in w.occupant && p != TileOf(w, id) ==> p in r.occupant && r.occupant[p] == w.occupant[p]
    ensures TileOf(w, id) in r.occupant <==> TileOf(w, id) in w.occupant && Health(w, id) > amount
  {
    TakeDamageEffect(w, id, amount, false);
    ActionSystem.Strike(w, id, amount, false)
  }

  // ----- Cleave over the valid tiles ---------------------------------------------------

  /** Tile.ActiveCard?.Heal(amount): the tile's card heals, when there is one. */
  function HealOn(w: World, p: Pos, amount: int): (r: World)
    requires Valid(w)
    ensures Valid(r) && LegacyAction.EnergyKept(w, r) && r.occupant == w.occupant
  {
    if p in w.occupant then ActionSystem.Mend(w, w.occupant[p], amount) else w
  }

  /** Tile.ActiveCard?.TakeDamage(amount): the tile's card takes the hit, when there is one. */
  function HitOn(w: World, p: Pos, amount: int): (r: World)
    requires Valid(w)
    ensures Valid(r) && LegacyAction.EnergyKept(w, r) && Shrinks(w, r)
  {
    if p in w.occupant then Hit(w, w.occupant[p], amount) else w
  }

  /** The Cleave heal: each valid tile's card, when there is one, heals by the amount, in list order. */
  function HealAll(w: World, tiles: seq<Pos>, amount: int): (r: World)
    requires Valid(w)
    ensures Valid(r) && LegacyAction.EnergyKept(w, r) && r.occupant == w.occupant
    decreases |tiles|
  {
    if tiles == [] then w
    else
      var prev := HealAll(w, tiles[..|tiles| - 1], amount);
      LegacyAction.EnergyKeptTransitive(w, prev, HealOn(prev, tiles[|tiles| - 1], amount));
      HealOn(prev, tiles[|tiles| - 1], amount)
  }

  /** The Cleave damage: each valid tile's card, when there is one, takes the amount, in list order. */
  function DamageAll(w: World, tiles: seq<Pos>, amount: int): (r: World)
    requires Valid(w)
    ensures Valid(r) && LegacyAction.EnergyKept(w, r) && Shrinks(w, r)
    decreases |tiles|
  {
    if tiles == [] then w
    else
      var prev := DamageAll(w, tiles[..|tiles| - 1], amount);
      LegacyAction.EnergyKeptTransitive(w, prev, HitOn(prev, tiles[|tiles| - 1], amount));
      HitOn(prev, tiles[|tiles| - 1], amount)
  }

  /** The foreach of the Cleave heal, with the null-conditional call on each tile's card. */
  method HealTiles(w: World, tiles: seq<Pos>, amount: int) returns (r: World)
    requires Valid(w)
    ensures r == HealAll(w, tiles, amount)
  {
    r := w;
    for k := 0 to |tiles|
      invariant r == HealAll(w, tiles[..k], amount)
    {
      assert tiles[..k + 1][..k] == tiles[..k];
      var tile := tiles[k];
      if tile in r.occupant {
        r := ActionSystem.Mend(r, r.occupant[tile], amount);
      }
    }
    assert tiles[..|tiles|] == tiles;
  }

  /**
   * The foreach of the Cleave damage: every tile adds the power to the damage dealt, whether
   * a card stood on it or not.
   */
  method DamageTiles(w: World, tiles: seq<Pos>, amount: int) returns (r: World, damageDealt: int)
    requires Valid(w)
    ensures r == DamageAll(w, tiles, amount)
    ensures damageDealt == |tiles| * amount
  {
    r := w;
    damageDealt := 0;
    for k := 0 to |tiles|
      invariant r == DamageAll(w, tiles[..k], amount)
      invariant damageDealt == k * amount
    {
      assert tiles[..k + 1][..k] == tiles[..k];
      var tile := tiles[k];
      if tile in r.occupant {
        r := Hit(r, r.occupant[tile], amount);
      }
      damageDealt := damageDealt + amount;
    }
    assert tiles[..|tiles|] == tiles;
  }

  /** Under the Cleave heal a unit off the valid tiles is untouched. */
  lemma {:induction false} HealAllUntouched(w: World, tiles: seq<Pos>, amount: int, u: UnitId)
    requires Valid(w) && u in w.units && !(OnItsTile(w, u) && TileOf(w, u) in tiles)
    ensures HealAll(w, tiles, amount).units[u] == w.units[u]
    decreases |tiles|
  {
    if tiles != [] {
      var init := tiles[..|tiles| - 1];
      var p := tiles[|tiles| - 1];
      HealAllUntouched(w, init, amount, u);
      if p in w.occupant {
        assert TileOf(w, w.occupant[p]) == p;
      }
    }
  }

  /** A unit standing on a valid tile heals once under the Cleave heal (each tile listed once). */
  lemma {:induction false} HealAllOnce(w: World, tiles: seq<Pos>, amount: int, u: UnitId)
    requires Valid(w) && u in w.units && Distinct(tiles) && OnItsTile(w, u) && TileOf(w, u) in tiles
    ensures var r := HealAll(w, tiles, amount);
      r.units[u] == w.units[u].(vitals := UnitStats.Heal(w.units[u].vitals, amount))
    decreases |tiles|
  {
    var init := tiles[..|tiles| - 1];
    var p := tiles[|tiles| - 1];
    assert Distinct(init);
    if p == TileOf(w, u) {
      assert p !in init;
      HealAllUntouched(w, init, amount, u);
    } else {
      assert TileOf(w, u) in init;
      HealAllOnce(w, init, amount, u);
      if p in w.occupant {
        assert TileOf(w, w.occupant[p]) == p;
      }
    }
  }

  /** Under the Cleave damage a unit off the valid tiles is untouched and keeps its tile. */
  lemma {:induction false} DamageAllUntouched(w: World, tiles: seq<Pos>, amount: int, u: UnitId)
    requires Valid(w) && u in w.units && !(OnItsTile(w, u) && TileOf(w, u) in tiles)
    ensures var r := DamageAll(w, tiles, amount);
      r.units[u] == w.units[u] && (OnItsTile(w, u) ==> OccupantAt(r, TileOf(w, u)) == Some(u))
    decreases |tiles|
  {
    if tiles != [] {
      var init := tiles[..|tiles| - 1];
      var p := tiles[|tiles| - 1];
      DamageAllUntouched(w, init, amount, u);
      var prev := DamageAll(w, init, amount);
      if p in prev.occupant {
        assert TileOf(prev, prev.occupant[p]) == p;
      }
    }
  }

  /** A unit standing on a valid tile takes the Cleave damage once (each tile listed once). */
  lemma {:induction false} DamageAllOnce(w: World, tiles: seq<Pos>, amount: int, u: UnitId)
    requires Valid(w) && u in w.units && Distinct(tiles) && OnItsTile(w, u) && TileOf(w, u) in tiles
    ensures var r := DamageAll(w, tiles, amount);
      r.units[u] == w.units[u].(vitals := UnitStats.TakeDamage(w.units[u].vitals, amount))
    decreases |tiles|
  {
    var init := tiles[..|tiles| - 1];
    var p := tiles[|tiles| - 1];
    var prev := DamageAll(w, init, amount);
    assert Distinct(init);
    if p == TileOf(w, u) {
      assert p !in init;
      DamageAllUntouched(w, init, amount, u);
    } else {
      assert TileOf(w, u) in init;
      DamageAllOnce(w, init, amount, u);
      if p in prev.occupant {
        assert TileOf(prev, prev.occupant[p]) == p;
      }
    }
  }

  // ----- PerformAction -----------------------------------------------------------------

  /** The damage Drain heals by: the power once per valid tile under Cleave, else once. */
  function DamageDealt(power: int, tiles: seq<Pos>, action: ActionInfo): int {
    if HasKeyword(action, Keyword.Cleave) then |tiles| * power else power
  }

  /** The Heal part: the Cleave heal when present, then the target space's card heals. */
  function Healing(w: World, card: UnitId, action: ActionInfo, tiles: seq<Pos>, targetSpace: Pos): (r: World)
    requires Valid(w) && card in w.units && targetSpace in w.occupant
    ensures Valid(r) && LegacyAction.EnergyKept(w, r) && r.occupant == w.occupant
  {
    var power := w.units[card].power;
    var healed := if HasKeyword(action, Keyword.Cleave) then HealAll(w, tiles, power) else w;
    LegacyAction.EnergyKeptTransitive(w, healed, HealOn(healed, targetSpace, power));
    HealOn(healed, targetSpace, power)
  }

  /**
   * The Damage part: the Cleave damage, or a single hit on the target space's card, then the
   * Drain heal of the actor by the damage counted.
   */
  function Damaging(w: World, card: UnitId, action: ActionInfo, tiles: seq<Pos>, targetSpace: Pos): (r: World)
    requires Valid(w) && card in w.units && targetSpace in w.occupant
    ensures Valid(r) && LegacyAction.EnergyKept(w, r) && Shrinks(w, r)
  {
    var power := w.units[card].power;
    var hit := if HasKeyword(action, Keyword.Cleave) then DamageAll(w, tiles, power) else HitOn(w, targetSpace, power);
    if HasKeyword(action, Keyword.Drain) then
      LegacyAction.EnergyKeptTransitive(w, hit, ActionSystem.Mend(hit, card, DamageDealt(power, tiles, action)));
      ActionSystem.Mend(hit, card, DamageDealt(power, tiles, action))
    else hit
  }

  /**
   * The Heal part, or else the Damage part, of PerformAction on the card that stood on the
   * target space when the action fired.
   */
  function Effect(w: World, card: UnitId, action: ActionInfo, tiles: seq<Pos>, targetSpace: Pos): (r: World)
    requires Valid(w) && card in w.units && targetSpace in w.occupant
    ensures Valid(r) && LegacyAction.EnergyKept(w, r) && Shrinks(w, r)
    ensures HasKeyword(action, Keyword.Heal) ==> r.occupant == w.occupant
  {
    if HasKeyword(action, Keyword.Heal) then Healing(w, card, action, tiles, targetSpace)
    else if HasKeyword(action, Keyword.Damage) then Damaging(w, card, action, tiles, targetSpace)
    else w
  }

  /** Effect, then Provoke on the target space's card; a target space left empty throws. */
  function Provoked(w: World, card: UnitId, action: ActionInfo, tiles: seq<Pos>, targetSpace: Pos): (r: Outcome)
    requires Valid(w) && card in w.units && targetSpace in w.occupant
    ensures Valid(r.world) && LegacyAction.EnergyKept(w, r.world) && Shrinks(w, r.world)
  {
    var e := Effect(w, card, action, tiles, targetSpace);
    if !HasKeyword(action, Keyword.Provoke) then Outcome(e, false)
    else if targetSpace !in e.occupant then Outcome(e, true)
    else
      LegacyAction.EnergyKeptTransitive(w, e, ActionSystem.PerformProvoke(e, card, e.occupant[targetSpace]));
      Outcome(ActionSystem.PerformProvoke(e, card, e.occupant[targetSpace]), false)
  }

  /**
   * PerformAction as written: the Momentum test reads the health of the card on the target
   * space, so after a kill, which empties that space, it dereferences null.
   */
  function PerformedAsWritten(w: World, card: UnitId, action: ActionInfo, cost: int, tiles: seq<Pos>, targetSpace: Pos): (r: Outcome)
    requires Valid(w) && card in w.units && targetSpace in w.occupant
  {
    var o := Provoked(w, card, action, tiles, targetSpace);
    if o.threw then o
    else if HasKeyword(action, Keyword.Momentum) && targetSpace !in o.world.occupant then o.(threw := true)
    else if HasKeyword(action, Keyword.Momentum) && Health(o.world, o.world.occupant[targetSpace]) <= 0 then o
    else o.(world := SpendEnergy(o.world, card, cost))
  }

  /**
   * PerformAction with the Momentum test on the target card itself: no energy is spent when
   * that card's health is at most 0 afterwards.
   */
  function Performed(w: World, card: UnitId, action: ActionInfo, cost: int, tiles: seq<Pos>, targetSpace: Pos): (r: Outcome)
    requires Valid(w) && card in w.units && targetSpace in w.occupant
  {
    var o := Provoked(w, card, action, tiles, targetSpace);
    if o.threw then o
    else if HasKeyword(action, Keyword.Momentum) && Health(o.world, w.occupant[targetSpace]) <= 0 then o
    else o.(world := SpendEnergy(o.world, card, cost))
  }

  /**
   * A Heal action only heals, whatever its other keywords: nobody leaves a tile, and each unit
   * heals once for standing on a valid tile under Cleave and once more for being the target.
   */
  lemma HealEffect(w: World, card: UnitId, action: ActionInfo, tiles: seq<Pos>, targetSpace: Pos, u: UnitId)
    requires Valid(w) && card in w.units && targetSpace in w.occupant && u in w.units
    requires HasKeyword(action, Keyword.Heal) && Distinct(tiles)
    ensures var r := Effect(w, card, action, tiles, targetSpace);
      var power := w.units[card].power;
      var once := if HasKeyword(action, Keyword.Cleave) && OnItsTile(w, u) && TileOf(w, u) in tiles
                  then UnitStats.Heal(w.units[u].vitals, power) else w.units[u].vitals;
      r.occupant == w.occupant
      && r.units[u] == w.units[u].(vitals := r.units[u].vitals)
      && r.units[u].vitals == if u == w.occupant[targetSpace] then UnitStats.Heal(once, power) else once
  {
    if HasKeyword(action, Keyword.Cleave) {
      if OnItsTile(w, u) && TileOf(w, u) in tiles {
        HealAllOnce(w, tiles, w.units[card].power, u);
      } else {
        HealAllUntouched(w, tiles, w.units[card].power, u);
      }
    }
  }

  /**
   * A Damage action without Heal hits the target once, or under Cleave every unit on a valid
   * tile once; Drain then heals the actor by the power times the number of valid tiles,
   * empty ones included, or by the power alone.
   */
  lemma DamageEffect(w: World, card: UnitId, action: ActionInfo, tiles: seq<Pos>, targetSpace: Pos, u: UnitId)
    requires Valid(w) && card in w.units && targetSpace in w.occupant && u in w.units
    requires HasKeyword(action, Keyword.Damage) && !HasKeyword(action, Keyword.Heal)
    requires HasKeyword(action, Keyword.Cleave) ==> Distinct(tiles)
    ensures var r := Effect(w, card, action, tiles, targetSpace);
      var power := w.units[card].power;
      var struck := if HasKeyword(action, Keyword.Cleave) then OnItsTile(w, u) && TileOf(w, u) in tiles
                    else u == w.occupant[targetSpace];
      var hit := if struck then UnitStats.TakeDamage(w.units[u].vitals, power) else w.units[u].vitals;
      r.units[u] == w.units[u].(vitals := r.units[u].vitals)
      && r.units[u].vitals ==
         if HasKeyword(action, Keyword.Drain) && u == card
         then UnitStats.Heal(hit, DamageDealt(power, tiles, action)) else hit
  {
    if HasKeyword(action, Keyword.Cleave) {
      if OnItsTile(w, u) && TileOf(w, u) in tiles {
        DamageAllOnce(w, tiles, w.units[card].power, u);
      } else {
        DamageAllUntouched(w, tiles, w.units[card].power, u);
      }
    }
  }

  /**
   * Provoke marks the target card as provoked by the actor, unless the hit killed it and left
   * the space empty: a single hit kills exactly when the target's health is at most the power,
   * and a Heal never empties the space.
   */
  lemma ProvokeEffect(w: World, card: UnitId, action: ActionInfo, tiles: seq<Pos>, targetSpace: Pos)
    requires Valid(w) && card in w.units && targetSpace in w.occupant
    requires HasKeyword(action, Keyword.Provoke)
    ensures var o := Provoked(w, card, action, tiles, targetSpace);
      var target := w.occupant[targetSpace];
      !o.threw ==> o.world.units[target].provoked && o.world.units[target].provoker == Some(card)
    ensures HasKeyword(action, Keyword.Heal) ==> !Provoked(w, card, action, tiles, targetSpace).threw
    ensures HasKeyword(action, Keyword.Damage) && !HasKeyword(action, Keyword.Heal) && !HasKeyword(action, Keyword.Cleave) ==>
      (Provoked(w, card, action, tiles, targetSpace).threw <==> Health(w, w.occupant[targetSpace]) <= w.units[card].power)
  {
    var e := Effect(w, card, action, tiles, targetSpace);
    var target := w.occupant[targetSpace];
    assert TileOf(w, target) == targetSpace;
    if targetSpace in e.occupant {
      assert e.occupant[targetSpace] == target;
    }
  }

  /**
   * The energy rule: after a Provoke that threw nothing is spent; otherwise the cost is spent
   * unless Momentum is present and the target card's health is at most 0 afterwards.
   */
  lemma PerformedEnergy(w: World, card: UnitId, action: ActionInfo, cost: int, tiles: seq<Pos>, targetSpace: Pos)
    requires Valid(w) && card in w.units && targetSpace in w.occupant
    ensures var o := Provoked(w, card, action, tiles, targetSpace);
      var r := Performed(w, card, action, cost, tiles, targetSpace);
      var spends := !o.threw && !(HasKeyword(action, Keyword.Momentum) && Health(o.world, w.occupant[targetSpace]) <= 0);
      r.threw == o.threw
      && r.world.units.Keys == w.units.Keys
      && r.world.units[card].vitals ==
         (if spends then UnitStats.LowerEnergy(o.world.units[card].vitals, cost) else o.world.units[card].vitals)
      && r.world.units[card].vitals.energy ==
         (if spends then UnitStats.LowerEnergy(w.units[card].vitals, cost).energy else w.units[card].vitals.energy)
  {
  }

  /**
   * The Momentum test as written and as intended agree except after a kill on the target
   * space: there the source throws, having spent nothing, where the target card's health
   * would have decided.
   */
  lemma AsWrittenAgreement(w: World, card: UnitId, action: ActionInfo, cost: int, tiles: seq<Pos>, targetSpace: Pos)
    requires Valid(w) && card in w.units && targetSpace in w.occupant
    ensures var o := Provoked(w, card, action, tiles, targetSpace);
      var broken := !o.threw && HasKeyword(action, Keyword.Momentum) && targetSpace !in o.world.occupant;
      (broken ==> PerformedAsWritten(w, card, action, cost, tiles, targetSpace) == o.(threw := true))
      && (!broken ==> PerformedAsWritten(w, card, action, cost, tiles, targetSpace) == Performed(w, card, action, cost, tiles, targetSpace))
  {
    var o := Provoked(w, card, action, tiles, targetSpace);
    if targetSpace in o.world.occupant {
      assert o.world.occupant[targetSpace] == w.occupant[targetSpace];
    }
  }

  /**
   * A lethal single Damage with Momentum: as written it throws and spends nothing; with the
   * test on the target card it completes and refunds the cost.
   */
  lemma MomentumKill(w: World, card: UnitId, action: ActionInfo, cost: int, tiles: seq<Pos>, targetSpace: Pos)
    requires Valid(w) && card in w.units && targetSpace in w.occupant && w.occupant[targetSpace] != card
    requires HasKeyword(action, Keyword.Damage) && HasKeyword(action, Keyword.Momentum)
    requires !HasKeyword(action, Keyword.Heal) && !HasKeyword(action, Keyword.Cleave) && !HasKeyword(action, Keyword.Provoke)
    requires Health(w, w.occupant[targetSpace]) <= w.units[card].power
    ensures PerformedAsWritten(w, card, action, cost, tiles, targetSpace).threw
    ensures PerformedAsWritten(w, card, action, cost, tiles, targetSpace).world.units[card].vitals.energy == w.units[card].vitals.energy
    ensures !Performed(w, card, action, cost, tiles, targetSpace).threw
    ensures Performed(w, card, action, cost, tiles, targetSpace).world.units[card].vitals.energy == w.units[card].vitals.energy
  {
    var target := w.occupant[targetSpace];
    assert TileOf(w, target) == targetSpace;
    DamageEffect(w, card, action, tiles, targetSpace, target);
    AsWrittenAgreement(w, card, action, cost, tiles, targetSpace);
  }

  // ----- The action component ----------------------------------------------------------

  class Action {
    const info: ActionInfo
    const card: UnitId
    var cost: int
    var isPlayer1: bool
    var isSelected: bool
    /** The valid tiles; None while the list has never been assigned (a null reference). */
    var validTiles: Option<seq<Pos>>

    constructor(info: ActionInfo, card: UnitId)
      ensures this.info == info && this.card == card
      ensures cost == 0 && !isPlayer1 && !isSelected && validTiles == None
    {
      this.info := info;
      this.card := card;
      cost := 0;
      isPlayer1 := false;
      isSelected := false;
      validTiles := None;
    }

    /** InitializeAction: the side and the cost are copied from the card and the asset. */
    method InitializeAction(w: World)
      requires card in w.units
      modifies this`isPlayer1, this`cost
      ensures isPlayer1 == w.units[card].isPlayer1 && cost == info.cost
    {
      isPlayer1 := w.units[card].isPlayer1;
      cost := info.cost;
    }

    /** OnMouseDown: the action is selected during player 1's turn. */
    method OnMouseDown(player1Turn: bool)
      modifies this`isSelected
      ensures isSelected == (old(isSelected) || player1Turn)
    {
      if player1Turn {
        isSelected := true;
      }
    }

    /**
     * SetRange: clears the list, then stores the provoker's tile, or the tiles the grid reports
     * in range (`tilesInRange`). Adding to a list that was never assigned throws.
     */
    method SetRange(w: World, tilesInRange: seq<Pos>) returns (threw: bool)
      requires Valid(w) && card in w.units
      modifies this`validTiles
      ensures threw <==> w.units[card].provoked && old(validTiles).None?
      ensures threw ==> validTiles == old(validTiles)
      ensures !threw && w.units[card].provoked ==> validTiles == Some([TileOf(w, w.units[card].provoker.value)])
      ensures !w.units[card].provoked ==> validTiles == Some(tilesInRange)
    {
      if validTiles.Some? {
        validTiles := Some([]);
      }
      var u := w.units[card];
      if u.provoked {
        if validTiles.None? {
          return true;
        }
        // the list was cleared above, so adding the provoker's tile leaves just that tile
        validTiles := Some([TileOf(w, u.provoker.value)]);
        return false;
      }
      validTiles := Some(tilesInRange);
      threw := false;
    }

    /** The mouse-up guard: a listed, occupied tile, and a card with the energy and not exhausted. */
    predicate Fires(w: World, hit: Pos)
      reads this
      requires card in w.units
    {
      validTiles.Some? && hit in validTiles.value && hit in w.occupant
      && info.cost <= w.units[card].vitals.energy && !w.units[card].vitals.exhausted
    }

    /** The Heal part of PerformAction: the Cleave heal over the valid tiles, then the target. */
    method HealPart(w: World, targetSpace: Pos) returns (r: World)
      requires Valid(w) && card in w.units && targetSpace in w.occupant && validTiles.Some?
      ensures r == Healing(w, card, info, validTiles.value, targetSpace)
    {
      var power := w.units[card].power;
      r := w;
      if HasKeyword(info, Keyword.Cleave) {
        r := HealTiles(r, validTiles.value, power);
      }
      r := ActionSystem.Mend(r, r.occupant[targetSpace], power);
    }

    /** The Damage part of PerformAction: the hits, counting the damage, then Drain. */
    method DamagePart(w: World, targetSpace: Pos) returns (r: World)
      requires Valid(w) && card in w.units && targetSpace in w.occupant && validTiles.Some?
      ensures r == Damaging(w, card, info, validTiles.value, targetSpace)
    {
      var power := w.units[card].power;
      var damageDealt;
      if HasKeyword(info, Keyword.Cleave) {
        r, damageDealt := DamageTiles(w, validTiles.value, power);
      } else {
        r := Hit(w, w.occupant[targetSpace], power);
        damageDealt := power;
      }
      if HasKeyword(info, Keyword.Drain) {
        r := ActionSystem.Mend(r, card, damageDealt);
      }
    }

    /** PerformAction on the tile the mouse was released over, with the Momentum test as written. */
    method PerformAction(w: World, targetSpace: Pos) returns (r: World, threw: bool)
      requires Valid(w) && card in w.units && targetSpace in w.occupant && validTiles.Some?
      ensures Outcome(r, threw) == PerformedAsWritten(w, card, info, cost, validTiles.value, targetSpace)
    {
      if HasKeyword(info, Keyword.Heal) {
        r := HealPart(w, targetSpace);
      } else if HasKeyword(info, Keyword.Damage) {
        r := DamagePart(w, targetSpace);
      } else {
        r := w;
      }
      assert r == Effect(w, card, info, validTiles.value, targetSpace);
      if HasKeyword(info, Keyword.Provoke) {
        if targetSpace !in r.occupant {
          return r, true;
        }
        r := ActionSystem.PerformProvoke(r, card, r.occupant[targetSpace]);
      }
      threw := false;
      if HasKeyword(info, Keyword.Momentum) {
        // the test reads the card now on the target space, which a kill has removed
        if targetSpace !in r.occupant {
          return r, true;
        }
        if Health(r, r.occupant[targetSpace]) <= 0 {
          return;
        }
      }
      r := SpendEnergy(r, card, cost);
    }

    /**
     * One frame of HandleTargetting while selected. DrawCard spends the cost and keeps the
     * action selected. Otherwise, on mouse-up over `hit`, the guard fires PerformAction,
     * whose throw (a lethal Momentum hit) leaves the action selected; then the action is
     * deselected and the valid tiles are walked, which throws on a null list, as does the
     * guard's Contains.
     */
    method HandleTargetting(w: World, mouseUp: bool, hit: Option<Pos>) returns (r: World, threw: bool)
      requires Valid(w) && card in w.units
      modifies this`isSelected
      ensures HasKeyword(info, Keyword.DrawCard) ==> r == SpendEnergy(w, card, cost) && !threw
      ensures !HasKeyword(info, Keyword.DrawCard) && !mouseUp ==> r == w && !threw
      ensures !HasKeyword(info, Keyword.DrawCard) && mouseUp && hit.Some? && Fires(w, hit.value) ==>
        Outcome(r, threw) == PerformedAsWritten(w, card, info, cost, validTiles.value, hit.value)
      ensures !HasKeyword(info, Keyword.DrawCard) && mouseUp && !(hit.Some? && Fires(w, hit.value)) ==>
        r == w && (threw <==> validTiles.None?)
      ensures isSelected ==
        if !HasKeyword(info, Keyword.DrawCard) && mouseUp && !(threw && hit.Some?) then false else old(isSelected)
    {
      r, threw := w, false;
      if HasKeyword(info, Keyword.DrawCard) {
        r := SpendEnergy(w, card, cost);
        return;
      }
      if mouseUp {
        if hit.Some? {
          if validTiles.None? {
            return w, true;
          }
          if Fires(w, hit.value) {
            r, threw := PerformAction(w, hit.value);
            if threw {
              return;
            }
          }
        }
        isSelected := false;
        if validTiles.None? {
          threw := true;
        }
      }
    }
  }
}
