/**
 * ActionSystem/Action.cs, the intermediate revision of a unit's action: the hit tile plus the
 * Cleave and Burst spaces around it, one pass per target space (Heal, then Damage with the
 * Momentum/Overkill kill test and the Overkill splash, then Provoke), the energy rule, and the
 * valid tiles that SetRange stores. A runtime exception of the source (a null card, an index
 * off the grid) is an outcome with `threw` set: the passes before it keep their effects.
 */
module LegacyAction {
  import opened Wrappers
  import opened Geometry
  import opened CardData
  import UnitStats
  import opened Battle
  import LegacyRanges
  import ActionSystem
  import ActionRanges

  // ----- Target spaces ------------------------------------------------------------------

  /** The Cleave rows as the source writes them: y + 1 when below 5, y − 1 only when above 0. */
  function CleaveRowsAsWritten(hit: Pos): seq<Pos> {
    (if hit.y + 1 < 5 then [Pos(hit.x, hit.y + 1)] else [])
    + (if hit.y - 1 > 0 then [Pos(hit.x, hit.y - 1)] else [])
  }

  /**
   * The Burst columns as the source writes them: x + d and x + 2d, compared only with the
   * upper bound 6; a column below 0 indexes the grid out of range (None).
   */
  function BurstColumnsAsWritten(hit: Pos, isPlayer1: bool): Option<seq<Pos>> {
    var d := if isPlayer1 then 1 else -1;
    if (hit.x + d < 6 && hit.x + d < 0) || (hit.x + 2 * d < 6 && hit.x + 2 * d < 0) then None
    else Some((if hit.x + d < 6 then [Pos(hit.x + d, hit.y)] else [])
              + (if hit.x + 2 * d < 6 then [Pos(hit.x + 2 * d, hit.y)] else []))
  }

  /** The target spaces as written; None when Burst indexes the grid out of range. */
  function TargetSpacesAsWritten(hit: Pos, isPlayer1: bool, action: ActionInfo): Option<seq<Pos>> {
    var cleave := if HasKeyword(action, Keyword.Cleave) then CleaveRowsAsWritten(hit) else [];
    if !HasKeyword(action, Keyword.Burst) then Some([hit] + cleave)
    else
      var burst := BurstColumnsAsWritten(hit, isPlayer1);
      if burst.None? then None else Some([hit] + cleave + burst.value)
  }

  /** The Cleave rows: the on-board tiles just below and just above the hit tile in its column. */
  function CleaveRows(hit: Pos): seq<Pos> {
    (if hit.y + 1 < Height then [Pos(hit.x, hit.y + 1)] else [])
    + (if hit.y - 1 >= 0 then [Pos(hit.x, hit.y - 1)] else [])
  }

  /** The Burst columns: the on-board tiles one and two steps further in the owner's direction. */
  function BurstColumns(hit: Pos, isPlayer1: bool): seq<Pos> {
    var d := Forward(isPlayer1);
    (if 0 <= hit.x + d < Width then [Pos(hit.x + d, hit.y)] else [])
    + (if 0 <= hit.x + 2 * d < Width then [Pos(hit.x + 2 * d, hit.y)] else [])
  }

  /** The target spaces of a hit: the hit tile, then the Cleave rows, then the Burst columns. */
  function TargetSpacesOf(hit: Pos, isPlayer1: bool, action: ActionInfo): seq<Pos> {
    [hit]
    + (if HasKeyword(action, Keyword.Cleave) then CleaveRows(hit) else [])
    + (if HasKeyword(action, Keyword.Burst) then BurstColumns(hit, isPlayer1) else [])
  }

  /**
   * Builds the target spaces by adding tile after tile, with the bounds tests of the source;
   * None when a Burst column below 0 indexes the grid.
   */
  method TargetSpaces(hitSpace: Pos, isPlayer1: bool, action: ActionInfo) returns (targetSpaces: Option<seq<Pos>>)
    ensures targetSpaces == TargetSpacesAsWritten(hitSpace, isPlayer1, action)
  {
    var spaces := [hitSpace];
    if HasKeyword(action, Keyword.Cleave) {
      var x := hitSpace.x;
      if hitSpace.y + 1 < 5 {
        spaces := spaces + [Pos(x, hitSpace.y + 1)];
      }
      if hitSpace.y - 1 > 0 {
        spaces := spaces + [Pos(x, hitSpace.y - 1)];
      }
    }
    assert spaces == [hitSpace] + (if HasKeyword(action, Keyword.Cleave) then CleaveRowsAsWritten(hitSpace) else []);
    if HasKeyword(action, Keyword.Burst) {
      var y := hitSpace.y;
      var direction := if isPlayer1 then 1 else -1;
      if hitSpace.x + direction < 6 {
        if hitSpace.x + direction < 0 {
          return None;
        }
        spaces := spaces + [Pos(hitSpace.x + direction, y)];
      }
      if hitSpace.x + direction * 2 < 6 {
        if hitSpace.x + direction * 2 < 0 {
          return None;
        }
        spaces := spaces + [Pos(hitSpace.x + direction * 2, y)];
      }
      assert spaces == [hitSpace] + (if HasKeyword(action, Keyword.Cleave) then CleaveRowsAsWritten(hitSpace) else [])
        + BurstColumnsAsWritten(hitSpace, isPlayer1).value;
    }
    return Some(spaces);
  }

  /**
   * The target spaces of a hit on the board are on the board, and are exactly: the hit tile;
   * with Cleave, its vertical neighbours; with Burst, the tiles one and two steps forward in
   * its row.
   */
  lemma TargetSpacesMembers(hit: Pos, isPlayer1: bool, action: ActionInfo, p: Pos)
    requires OnBoard(hit)
    ensures p in TargetSpacesOf(hit, isPlayer1, action) <==>
      p == hit
      || (HasKeyword(action, Keyword.Cleave) && OnBoard(p) && p.x == hit.x && Abs(p.y - hit.y) == 1)
      || (HasKeyword(action, Keyword.Burst) && OnBoard(p) && p.y == hit.y
          && (p.x == hit.x + Forward(isPlayer1) || p.x == hit.x + 2 * Forward(isPlayer1)))
  {
  }

  /** No tile is a target space twice, so no card is hit twice by one action. */
  lemma TargetSpacesDistinct(hit: Pos, isPlayer1: bool, action: ActionInfo)
    ensures Distinct(TargetSpacesOf(hit, isPlayer1, action))
  {
  }

  /**
   * Row 0 is never a Cleave space as written: a hit on row 1 leaves the tile below it out,
   * where the corrected rows include it.
   */
  lemma CleaveSkipsRowZero(hit: Pos, isPlayer1: bool, action: ActionInfo)
    requires OnBoard(hit) && hit.y == 1 && HasKeyword(action, Keyword.Cleave) && !HasKeyword(action, Keyword.Burst)
    ensures TargetSpacesAsWritten(hit, isPlayer1, action) == Some([hit, Pos(hit.x, 2)])
    ensures Pos(hit.x, 0) in TargetSpacesOf(hit, isPlayer1, action)
  {
    assert CleaveRowsAsWritten(hit) == [Pos(hit.x, 2)];
    assert [hit] + [Pos(hit.x, 2)] == [hit, Pos(hit.x, 2)];
  }

  /** As written, a player 2 Burst hit on column 0 or 1 indexes a negative column. */
  lemma BurstLeavesBoard(hit: Pos, action: ActionInfo)
    requires OnBoard(hit) && hit.x <= 1 && HasKeyword(action, Keyword.Burst)
    ensures TargetSpacesAsWritten(hit, false, action) == None
    ensures forall p :: p in TargetSpacesOf(hit, false, action) ==> OnBoard(p)
  {
  }

  /**
   * The written target spaces agree with the corrected ones exactly away from the two
   * defects: a Cleave hit on row 1 and a player 2 Burst hit on column 0 or 1.
   */
  lemma AsWrittenAgreement(hit: Pos, isPlayer1: bool, action: ActionInfo)
    requires OnBoard(hit)
    ensures TargetSpacesAsWritten(hit, isPlayer1, action) == Some(TargetSpacesOf(hit, isPlayer1, action)) <==>
      !(HasKeyword(action, Keyword.Cleave) && hit.y == 1)
      && !(HasKeyword(action, Keyword.Burst) && !isPlayer1 && hit.x <= 1)
  {
    var asWritten := TargetSpacesAsWritten(hit, isPlayer1, action);
    if HasKeyword(action, Keyword.Burst) && !isPlayer1 && hit.x <= 1 {
      assert asWritten == None;
    } else if HasKeyword(action, Keyword.Cleave) && hit.y == 1 {
      if asWritten.Some? {
        assert Pos(hit.x, 0) !in asWritten.value;
        assert Pos(hit.x, 0) in TargetSpacesOf(hit, isPlayer1, action);
      }
    } else {
      var cleave := if HasKeyword(action, Keyword.Cleave) then CleaveRowsAsWritten(hit) else [];
      assert cleave == if HasKeyword(action, Keyword.Cleave) then CleaveRows(hit) else [];
      if HasKeyword(action, Keyword.Burst) {
        assert BurstColumnsAsWritten(hit, isPlayer1) == Some(BurstColumns(hit, isPlayer1));
      } else {
        assert [hit] + cleave + [] == [hit] + cleave;
      }
    }
  }

  // ----- Performing the action ----------------------------------------------------------

  /**
   * The state after some passes: the board, whether a target was slain, and whether the
   * source threw (which ends the action where it stands).
   */
  datatype Outcome = Outcome(world: World, slain: bool, threw: bool)

  /** The kill test: Momentum or Overkill, and a health before the pass of at most the power. */
  predicate Lethal(action: ActionInfo, targetHealth: int, power: int) {
    (HasKeyword(action, Keyword.Momentum) || HasKeyword(action, Keyword.Overkill)) && targetHealth <= power
  }

  /** The tile a strictly lethal hit spills over onto: the next column of the same row. */
  function SplashSpace(space: Pos): Pos {
    Pos(space.x + 1, space.y)
  }

  /**
   * The Damage part of a pass on the target standing on `space`, whose health before the pass
   * was `targetHealth`: the target takes the power; a lethal hit marks a kill and, when the
   * health was strictly below the power, the card on the splash tile takes the excess (the
   * source throws when that tile is off the grid or empty); then Drain heals the acting unit
   * by the power.
   */
  function DamagePass(w: World, card: UnitId, target: UnitId, space: Pos, targetHealth: int, action: ActionInfo, slain: bool): (r: Outcome)
    requires Valid(w) && card in w.units && target in w.units
    ensures Valid(r.world) && EnergyKept(w, r.world)
    ensures r.threw ==> r.slain
    ensures !r.threw ==> (r.slain <==> slain || Lethal(action, targetHealth, w.units[card].power))
  {
    var power := w.units[card].power;
    var deathTouch := HasKeyword(action, Keyword.DeathTouch);
    var hit := ActionSystem.Strike(w, target, power, deathTouch);
    if !Lethal(action, targetHealth, power) then Outcome(Drained(hit, card, action, power), slain, false)
    else if targetHealth == power then Outcome(Drained(hit, card, action, power), true, false)
    else SplashPass(hit, card, SplashSpace(space), power - targetHealth, action, power)
  }

  /**
   * The splash of a strictly lethal hit: the card on `tile` takes the excess, then Drain heals
   * the acting unit by the damage dealt. The source throws when the tile is off the grid or empty.
   */
  function SplashPass(hit: World, card: UnitId, tile: Pos, excess: int, action: ActionInfo, damageDealt: int): (r: Outcome)
    requires Valid(hit) && card in hit.units
    ensures Valid(r.world) && EnergyKept(hit, r.world) && r.slain && r.world.occupant.Keys <= hit.occupant.Keys
    ensures r.threw <==> tile.x >= Width || tile !in hit.occupant
  {
    if tile.x >= Width || tile !in hit.occupant then Outcome(hit, true, true)
    else
      var splashed := ActionSystem.Strike(hit, hit.occupant[tile], excess, HasKeyword(action, Keyword.DeathTouch));
      Outcome(Drained(splashed, card, action, damageDealt), true, false)
  }

  /** Drain: the acting unit heals by the damage dealt, when the action has it. */
  function Drained(w: World, card: UnitId, action: ActionInfo, damageDealt: int): (r: World)
    requires Valid(w) && card in w.units
    ensures Valid(r) && EnergyKept(w, r) && r.occupant == w.occupant
    ensures forall u :: u in w.units && u != card ==> r.units[u] == w.units[u]
  {
    if HasKeyword(action, Keyword.Drain) then ActionSystem.Mend(w, card, damageDealt) else w
  }

  /**
   * One pass of PerformAction's loop over a target space. The source throws when the space is
   * empty, and when a Provoke action has just killed the card standing on it.
   */
  function Pass(w: World, card: UnitId, action: ActionInfo, space: Pos, slain: bool): (r: Outcome)
    requires Valid(w) && card in w.units
    ensures Valid(r.world) && r.world.units.Keys == w.units.Keys
  {
    if space !in w.occupant then Outcome(w, slain, true)
    else
      var target := w.occupant[space];
      var healed := ActionSystem.Healed(w, card, target, action);
      ProvokePass(Damaged(healed, card, target, space, Health(w, target), action, slain), card, action, space)
  }

  /** The Damage part of a pass when the action has it; nothing otherwise. */
  function Damaged(w: World, card: UnitId, target: UnitId, space: Pos, targetHealth: int, action: ActionInfo, slain: bool): (r: Outcome)
    requires Valid(w) && card in w.units && target in w.units
    ensures Valid(r.world) && EnergyKept(w, r.world)
    ensures r.slain ==> slain || (HasKeyword(action, Keyword.Damage) && Lethal(action, targetHealth, w.units[card].power))
    ensures !r.threw ==>
      (r.slain <==> slain || (HasKeyword(action, Keyword.Damage) && Lethal(action, targetHealth, w.units[card].power)))
  {
    if HasKeyword(action, Keyword.Damage) then DamagePass(w, card, target, space, targetHealth, action, slain)
    else Outcome(w, slain, false)
  }

  /** The Provoke part of a pass: the card now on the space is provoked; none there throws. */
  function ProvokePass(o: Outcome, card: UnitId, action: ActionInfo, space: Pos): (r: Outcome)
    requires Valid(o.world) && card in o.world.units
    ensures Valid(r.world) && EnergyKept(o.world, r.world) && r.slain == o.slain && (o.threw ==> r.threw)
  {
    if o.threw || !HasKeyword(action, Keyword.Provoke) then o
    else if space !in o.world.occupant then o.(threw := true)
    else o.(world := ActionSystem.PerformProvoke(o.world, card, o.world.occupant[space]))
  }

  /** The passes over the target spaces in list order, up to the first one that throws. */
  function Run(w: World, card: UnitId, action: ActionInfo, spaces: seq<Pos>): (r: Outcome)
    requires Valid(w) && card in w.units
    ensures Valid(r.world) && r.world.units.Keys == w.units.Keys
    decreases |spaces|
  {
    if spaces == [] then Outcome(w, false, false)
    else
      var prev := Run(w, card, action, spaces[..|spaces| - 1]);
      if prev.threw then prev else Pass(prev.world, card, action, spaces[|spaces| - 1], prev.slain)
  }

  /** PerformAction: the passes, then the energy cost unless a kill was made with Momentum. */
  function Performed(w: World, card: UnitId, action: ActionInfo, cost: int, spaces: seq<Pos>): (r: Outcome)
    requires Valid(w) && card in w.units
    ensures Valid(r.world) && r.world.units.Keys == w.units.Keys
  {
    var o := Run(w, card, action, spaces);
    if o.threw || (o.slain && HasKeyword(action, Keyword.Momentum)) then o
    else
      ValidPreserved(o.world, card, cost, false, card);
      o.(world := SpendEnergy(o.world, card, cost))
  }

  /** The body of PerformAction's loop for one target space. */
  method PassOn(w: World, card: UnitId, action: ActionInfo, targetSpace: Pos, slain: bool) returns (r: Outcome)
    requires Valid(w) && card in w.units
    ensures r == Pass(w, card, action, targetSpace, slain)
  {
    if targetSpace !in w.occupant {
      return Outcome(w, slain, true);
    }
    var target := w.occupant[targetSpace];
    var targetHealth := Health(w, target);
    var world := w;
    if HasKeyword(action, Keyword.Heal) {
      world := ActionSystem.PerformHeal(world, card, target);
    }
    assert world == ActionSystem.Healed(w, card, target, action);
    r := Outcome(world, slain, false);
    if HasKeyword(action, Keyword.Damage) {
      r := DamagePass(world, card, target, targetSpace, targetHealth, action, slain);
    }
    assert r == Damaged(world, card, target, targetSpace, targetHealth, action, slain);
    if r.threw {
      return;
    }
    if HasKeyword(action, Keyword.Provoke) {
      if targetSpace !in r.world.occupant {
        return r.(threw := true);
      }
      r := r.(world := ActionSystem.PerformProvoke(r.world, card, r.world.occupant[targetSpace]));
    }
  }

  /** Once a pass has thrown, later target spaces change nothing. */
  lemma {:induction false} RunThrown(w: World, card: UnitId, action: ActionInfo, spaces: seq<Pos>, k: nat)
    requires Valid(w) && card in w.units && k <= |spaces|
    requires Run(w, card, action, spaces[..k]).threw
    ensures Run(w, card, action, spaces) == Run(w, card, action, spaces[..k])
    decreases |spaces|
  {
    if k < |spaces| {
      var init := spaces[..|spaces| - 1];
      assert init[..k] == spaces[..k];
      RunThrown(w, card, action, init, k);
    } else {
      assert spaces[..k] == spaces;
    }
  }

  /** Every unit keeps its energy and exhaustion; only health and provoke state change. */
  predicate EnergyKept(a: World, b: World) {
    a.units.Keys == b.units.Keys
    && forall u :: u in a.units ==>
         b.units[u].vitals.energy == a.units[u].vitals.energy
         && b.units[u].vitals.exhausted == a.units[u].vitals.exhausted
  }

  lemma PassKeepsEnergy(w: World, card: UnitId, action: ActionInfo, space: Pos, slain: bool)
    requires Valid(w) && card in w.units
    ensures EnergyKept(w, Pass(w, card, action, space, slain).world)
  {
    if space in w.occupant {
      var target := w.occupant[space];
      var healed := ActionSystem.Healed(w, card, target, action);
      HealedKeepsEnergy(w, card, target, action);
      var damaged := Damaged(healed, card, target, space, Health(w, target), action, slain);
      EnergyKeptTransitive(w, healed, damaged.world);
      EnergyKeptTransitive(w, damaged.world, ProvokePass(damaged, card, action, space).world);
    }
  }

  /** The Heal part of a pass changes only health. */
  lemma HealedKeepsEnergy(w: World, card: UnitId, target: UnitId, action: ActionInfo)
    requires Valid(w) && card in w.units && target in w.units
    ensures EnergyKept(w, ActionSystem.Healed(w, card, target, action))
  {
  }

  lemma EnergyKeptTransitive(a: World, b: World, c: World)
    requires EnergyKept(a, b) && EnergyKept(b, c)
    ensures EnergyKept(a, c)
  {
  }

  /** The passes never touch energy. */
  lemma {:induction false} RunKeepsEnergy(w: World, card: UnitId, action: ActionInfo, spaces: seq<Pos>)
    requires Valid(w) && card in w.units
    ensures EnergyKept(w, Run(w, card, action, spaces).world)
    decreases |spaces|
  {
    if spaces != [] {
      var init := spaces[..|spaces| - 1];
      RunKeepsEnergy(w, card, action, init);
      var prev := Run(w, card, action, init);
      if !prev.threw {
        PassKeepsEnergy(prev.world, card, action, spaces[|spaces| - 1], prev.slain);
      }
    }
  }

  /**
   * The energy rule: an action that completes lowers the acting unit's energy by the cost
   * (exhausting it at 0) exactly when no target was slain or the action lacks Momentum; an
   * action that throws spends nothing.
   */
  lemma PerformedEnergy(w: World, card: UnitId, action: ActionInfo, cost: int, spaces: seq<Pos>)
    requires Valid(w) && card in w.units
    ensures var o := Run(w, card, action, spaces);
      var r := Performed(w, card, action, cost, spaces);
      var before := w.units[card].vitals;
      var after := r.world.units[card].vitals;
      if !o.threw && !(o.slain && HasKeyword(action, Keyword.Momentum)) then
        after.energy == UnitStats.LowerEnergy(before, cost).energy
        && after.exhausted == UnitStats.LowerEnergy(before, cost).exhausted
      else after.energy == before.energy && after.exhausted == before.exhausted
  {
    RunKeepsEnergy(w, card, action, spaces);
  }

  /**
   * The kill flag of a pass that completes: it is set exactly when the action damages and the
   * target's health before the pass (before any Heal of the pass) was at most the power, with
   * Momentum or Overkill.
   */
  lemma PassSlain(w: World, card: UnitId, action: ActionInfo, space: Pos, slain: bool)
    requires Valid(w) && card in w.units
    ensures var r := Pass(w, card, action, space, slain);
      (r.slain ==> slain || (space in w.occupant && HasKeyword(action, Keyword.Damage)
                             && Lethal(action, Health(w, w.occupant[space]), w.units[card].power)))
      && (!r.threw ==> space in w.occupant
                       && (r.slain <==> slain || (HasKeyword(action, Keyword.Damage)
                                                  && Lethal(action, Health(w, w.occupant[space]), w.units[card].power))))
  {
  }

  /** The kill flag is only ever set by a damaging action with Momentum or Overkill. */
  lemma {:induction false} RunSlain(w: World, card: UnitId, action: ActionInfo, spaces: seq<Pos>)
    requires Valid(w) && card in w.units
    ensures Run(w, card, action, spaces).slain ==>
      HasKeyword(action, Keyword.Damage) && (HasKeyword(action, Keyword.Momentum) || HasKeyword(action, Keyword.Overkill))
    decreases |spaces|
  {
    if spaces != [] {
      var init := spaces[..|spaces| - 1];
      RunSlain(w, card, action, init);
      var prev := Run(w, card, action, init);
      if !prev.threw {
        PassSlain(prev.world, card, action, spaces[|spaces| - 1], prev.slain);
      }
    }
  }

  /**
   * The splash: when the target's health before the pass is strictly below the power, with
   * Momentum or Overkill, the pass completes only if the next tile of the row holds a card, and
   * that card loses exactly the excess (unless it is the acting unit, which Drain may heal).
   */
  lemma PassSplash(w: World, card: UnitId, action: ActionInfo, space: Pos, slain: bool)
    requires Valid(w) && card in w.units && space in w.occupant
    requires HasKeyword(action, Keyword.Damage) && !HasKeyword(action, Keyword.Provoke)
    requires var target := w.occupant[space];
      Lethal(action, Health(w, target), w.units[card].power) && Health(w, target) < w.units[card].power
    ensures var r := Pass(w, card, action, space, slain);
      !r.threw <==> SplashSpace(space) in w.occupant
    ensures var r := Pass(w, card, action, space, slain);
      !r.threw ==>
        var s := w.occupant[SplashSpace(space)];
        var excess := w.units[card].power - Health(w, w.occupant[space]);
        s != card ==> Health(r.world, s) == Health(w, s) - excess
  {
    var target := w.occupant[space];
    var healed := ActionSystem.Healed(w, card, target, action);
    var tile := SplashSpace(space);
    var hit := ActionSystem.Strike(healed, target, w.units[card].power, HasKeyword(action, Keyword.DeathTouch));
    assert tile in hit.occupant <==> tile in w.occupant by {
      if tile in w.occupant {
        assert w.units[w.occupant[tile]].tile == Some(tile);
      }
    }
    if tile in w.occupant {
      assert w.units[w.occupant[tile]].tile == Some(tile);
      assert hit.occupant[tile] == w.occupant[tile];
    }
  }

  /**
   * A Damage and Provoke action that kills the card on the space throws: the card is gone from
   * the tile by the time Provoke reads it, so the action ends there and no energy is spent.
   */
  lemma ProvokeAfterKillThrows(w: World, card: UnitId, action: ActionInfo, space: Pos, slain: bool)
    requires Valid(w) && card in w.units && space in w.occupant
    requires HasKeyword(action, Keyword.Damage) && HasKeyword(action, Keyword.Provoke) && !HasKeyword(action, Keyword.Heal)
    requires Health(w, w.occupant[space]) <= w.units[card].power || HasKeyword(action, Keyword.DeathTouch)
    ensures Pass(w, card, action, space, slain).threw
  {
    var target := w.occupant[space];
    assert ActionSystem.Healed(w, card, target, action) == w;
    DamageEmptiesSpace(w, card, target, space, Health(w, target), action, slain);
  }

  /** A lethal hit leaves the target's space empty, whatever the splash and Drain do after it. */
  lemma DamageEmptiesSpace(w: World, card: UnitId, target: UnitId, space: Pos, targetHealth: int, action: ActionInfo, slain: bool)
    requires Valid(w) && card in w.units && target in w.units && w.units[target].tile == Some(space)
    requires UnitStats.Dies(w.units[target].vitals, w.units[card].power, HasKeyword(action, Keyword.DeathTouch))
    ensures space !in DamagePass(w, card, target, space, targetHealth, action, slain).world.occupant
  {
    TakeDamageEffect(w, target, w.units[card].power, HasKeyword(action, Keyword.DeathTouch));
  }

  // ----- The action component -----------------------------------------------------------

  /** The tiles the legacy ranges give for the action's range. */
  function LegacyRangeTiles(current: Pos, isPlayer1: bool, action: ActionInfo, occupied: set<Pos>): seq<Pos> {
    match action.range
    case Melee => LegacyRanges.NeighbourTiles(current, isPlayer1, action.validTargets)
    case Reach => LegacyRanges.NeighbourTiles(current, isPlayer1, action.validTargets)
    case Ranged => LegacyRanges.RangedTiles(current, isPlayer1, action.validTargets, occupied)
    case Global => LegacyRanges.GlobalTiles(current, isPlayer1, action.validTargets)
  }

  /** The valid tiles SetRange stores: the provoker's tile when provoked, else the range's tiles. */
  function RangeOf(w: World, card: UnitId, action: ActionInfo, isPlayer1: bool): seq<Pos>
    requires Valid(w) && card in w.units
  {
    var u := w.units[card];
    if u.provoked then [TileOf(w, u.provoker.value)]
    else LegacyRangeTiles(TileOf(w, card), isPlayer1, action, w.occupant.Keys)
  }

  /**
   * The tiles of a range: the eligible tiles around the unit for Melee and Reach, the eligible
   * tiles of the whole board for Global, and the Ranged scan otherwise.
   */
  lemma LegacyRangeTilesMembers(current: Pos, isPlayer1: bool, action: ActionInfo, occupied: set<Pos>, p: Pos)
    ensures var vt := action.validTargets;
      p in LegacyRangeTiles(current, isPlayer1, action, occupied) <==>
        match action.range
        case Melee => OnBoard(p) && Abs(p.x - current.x) <= 1 && Abs(p.y - current.y) <= 1 && ActionRanges.Eligible(current, isPlayer1, vt, p)
        case Reach => OnBoard(p) && Abs(p.x - current.x) <= 1 && Abs(p.y - current.y) <= 1 && ActionRanges.Eligible(current, isPlayer1, vt, p)
        case Global => OnBoard(p) && ActionRanges.Eligible(current, isPlayer1, vt, p)
        case Ranged => p in LegacyRanges.RangedTiles(current, isPlayer1, vt, occupied)
  {
    match action.range {
      case Melee => LegacyRanges.NeighbourTilesMembers(current, isPlayer1, action.validTargets, p);
      case Reach => LegacyRanges.NeighbourTilesMembers(current, isPlayer1, action.validTargets, p);
      case Global => LegacyRanges.GlobalTilesMembers(current, isPlayer1, action.validTargets, p);
      case Ranged =>
    }
  }

  /**
   * A provoked unit may target only its provoker's tile, and an unprovoked one exactly the
   * tiles of its range seen from its own tile, with the occupied tiles of the board.
   */
  lemma RangeOfMembers(w: World, card: UnitId, action: ActionInfo, isPlayer1: bool, p: Pos)
    requires Valid(w) && card in w.units
    ensures var u := w.units[card];
      p in RangeOf(w, card, action, isPlayer1) <==>
        if u.provoked then p == TileOf(w, u.provoker.value)
        else p in LegacyRangeTiles(TileOf(w, card), isPlayer1, action, w.occupant.Keys)
    ensures w.units[card].provoked ==> |RangeOf(w, card, action, isPlayer1)| == 1
  {
  }

  /** An action component of a unit card: its asset, its card and the state the source keeps. */
  class Action {
    const info: ActionInfo
    const card: UnitId
    var cost: int
    var isPlayer1: bool
    var isSelected: bool
    /** The valid tiles; None while the list has never been assigned (a null reference). */
    var validTiles: Option<seq<Pos>>

    constructor(info: ActionInfo, card: UnitId)
      ensures this.info == info && this.card == card
      ensures cost == 0 && !isPlayer1 && !isSelected && validTiles == None
    {
      this.info := info;
      this.card := card;
      cost := 0;
      isPlayer1 := false;
      isSelected := false;
      validTiles := None;
    }

    /** InitializeAction: the side and the cost are copied from the card and the asset. */
    method InitializeAction(w: World)
      requires card in w.units
      modifies this`isPlayer1, this`cost
      ensures isPlayer1 == w.units[card].isPlayer1 && cost == info.cost
    {
      isPlayer1 := w.units[card].isPlayer1;
      cost := info.cost;
    }

    /** OnMouseDown: the action is selected during player 1's turn. */
    method OnMouseDown(player1Turn: bool)
      modifies this`isSelected
      ensures isSelected == (old(isSelected) || player1Turn)
    {
      if player1Turn {
        isSelected := true;
      }
    }

    /**
     * SetRange: clears the list, then stores the provoker's tile, or the range's tiles. Adding
     * to a list that was never assigned throws; the stored side is the one InitializeAction copied.
     */
    method SetRange(w: World) returns (threw: bool)
      requires Valid(w) && card in w.units
      modifies this`validTiles
      ensures threw <==> w.units[card].provoked && old(validTiles).None?
      ensures threw ==> validTiles == old(validTiles)
      ensures !threw ==> validTiles == Some(RangeOf(w, card, info, isPlayer1))
    {
      if validTiles.Some? {
        validTiles := Some([]);
      }
      var u := w.units[card];
      if u.provoked {
        if validTiles.None? {
          return true;
        }
        // the list was cleared above, so adding the provoker's tile leaves just that tile
        validTiles := Some([TileOf(w, u.provoker.value)]);
        return false;
      }
      var current := TileOf(w, card);
      var tiles: seq<Pos>;
      match info.range {
        case Melee => tiles := LegacyRanges.Melee(current, isPlayer1, info.validTargets);
        case Ranged => tiles := LegacyRanges.Ranged(current, isPlayer1, info.validTargets, w.occupant.Keys);
        case Reach => tiles := LegacyRanges.Reach(current, isPlayer1, info.validTargets);
        case Global => tiles := LegacyRanges.Global(current, isPlayer1, info.validTargets);
      }
      validTiles := Some(tiles);
      threw := false;
    }

    /** PerformAction over the target spaces; `threw` when some pass throws. */
    method PerformAction(w: World, targetSpaces: seq<Pos>) returns (r: World, threw: bool)
      requires Valid(w) && card in w.units
      ensures Outcome(r, Run(w, card, info, targetSpaces).slain, threw) == Performed(w, card, info, cost, targetSpaces)
    {
      var targetSlain := false;
      r := w;
      threw := false;
      var k := 0;
      while k < |targetSpaces|
        invariant 0 <= k <= |targetSpaces|
        invariant Run(w, card, info, targetSpaces[..k]) == Outcome(r, targetSlain, false)
      {
        assert targetSpaces[..k + 1][..k] == targetSpaces[..k];
        var o := PassOn(r, card, info, targetSpaces[k], targetSlain);
        if o.threw {
          RunThrown(w, card, info, targetSpaces, k + 1);
          return o.world, true;
        }
        r, targetSlain := o.world, o.slain;
        k := k + 1;
      }
      assert targetSpaces[..k] == targetSpaces;
      if !targetSlain || !HasKeyword(info, Keyword.Momentum) {
        ValidPreserved(r, card, cost, false, card);
        r := SpendEnergy(r, card, cost);
      }
    }

    /** The guard of line 59: the release of the mouse, enough energy for the cost, not exhausted. */
    predicate CanAct(w: World, mouseUp: bool)
      requires card in w.units
      reads this
    {
      mouseUp && info.cost <= w.units[card].vitals.energy && !w.units[card].vitals.exhausted
    }

    /** The action fires: the guard holds, and the hit tile is a valid tile with a card on it. */
    predicate Fires(w: World, mouseUp: bool, hit: Option<Pos>)
      requires card in w.units
      reads this
    {
      CanAct(w, mouseUp) && hit.Some? && validTiles.Some? && hit.value in validTiles.value && hit.value in w.occupant
    }

    /**
     * The guard holds over a hit tile whose target spaces, built as the source builds them,
     * index the grid out of range.
     */
    predicate SpacesThrow(w: World, mouseUp: bool, hit: Option<Pos>)
      requires card in w.units
      reads this
    {
      CanAct(w, mouseUp) && hit.Some? && TargetSpacesAsWritten(hit.value, w.units[card].isPlayer1, info).None?
    }

    /**
     * HandleTargetting on a frame where `mouseUp` tells whether the button was released and
     * `hit` is the tile under the cursor, if any. A list of valid tiles that was never assigned
     * throws at once. Otherwise, under the guard, the target spaces of the hit are built first,
     * which throws for a Burst that reaches a negative column; then the action fires exactly
     * when Fires holds, over those spaces, and the selection ends with the guard unless
     * something threw.
     */
    method HandleTargetting(w: World, mouseUp: bool, hit: Option<Pos>) returns (r: World, threw: bool)
      requires Valid(w) && card in w.units
      requires hit.Some? ==> OnBoard(hit.value)
      modifies this`isSelected
      ensures old(validTiles).None? ==> r == w && threw && isSelected == old(isSelected)
      ensures old(validTiles).Some? && SpacesThrow(w, mouseUp, hit) ==> r == w && threw
      ensures old(validTiles).Some? && !SpacesThrow(w, mouseUp, hit) && Fires(w, mouseUp, hit) ==>
        var spaces := TargetSpacesAsWritten(hit.value, w.units[card].isPlayer1, info).value;
        var o := Performed(w, card, info, cost, spaces);
        r == o.world && threw == o.threw
      ensures old(validTiles).Some? && !SpacesThrow(w, mouseUp, hit) && !Fires(w, mouseUp, hit) ==> r == w && !threw
      ensures old(validTiles).Some? ==> isSelected == (if CanAct(w, mouseUp) && !threw then false else old(isSelected))
    {
      r, threw := w, false;
      if validTiles.None? {
        return w, true;
      }
      if mouseUp && info.cost <= w.units[card].vitals.energy && !w.units[card].vitals.exhausted {
        if hit.Some? {
          var hitSpace := hit.value;
          var targetSpaces := TargetSpaces(hitSpace, w.units[card].isPlayer1, info);
          if targetSpaces.None? {
            return w, true;
          }
          if hitSpace in validTiles.value && hitSpace in w.occupant {
            r, threw := PerformAction(w, targetSpaces.value);
            if threw {
              return;
            }
          }
        }
        isSelected := false;
      }
    }
  }
}
