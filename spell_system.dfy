/**
 * Assets/Scripts/CardSystem/SpellSystem/SpellSystem.cs: the spell's footprint on the board
 * (a rectangle around the cursor tile, clamped to the grid and filtered by side), the tile
 * highlighting that follows it, and the resolution of a spell on its target cards.
 */
module SpellSystem {
  import opened Wrappers
  import opened Geometry
  import UnitStats
  import opened Battle
  import opened Scene
  import opened GridManagement
  import ActionSystem
  import LegacyAction

  /** The parts of a spell's SpellInfo that the resolution reads: its power and its tags. */
  datatype SpellInfo = SpellInfo(power: int, damage: bool, heal: bool, deathTouch: bool)

  // ----- The footprint -----------------------------------------------------------------

  /** n / 2 in C#: the quotient is truncated toward zero. */
  function HalfTowardZero(n: int): (r: int)
    ensures 0 <= n ==> r == n / 2
    ensures n < 0 ==> r == -((-n) / 2)
  {
    if n >= 0 then n / 2 else -((-n) / 2)
  }

  /** How far the footprint reaches before the cursor along an axis of extent `size`. */
  function Reach(size: int): int {
    HalfTowardZero(size - 1)
  }

  /** The extra cell an even extent adds after the cursor (n % 2 == 0 holds for the same n in C#). */
  function Extra(size: int): int {
    if size % 2 == 0 then 1 else 0
  }

  /** The first and last cell of the footprint along an axis with `cells` cells. */
  function Low(c: int, size: int): (r: int)
    ensures 0 <= r
  {
    Max(0, c - Reach(size))
  }

  function High(c: int, size: int, cells: int): (r: int)
    ensures r <= cells - 1
  {
    Min(cells - 1, c + Reach(size) + Extra(size))
  }

  /** Side of a column, as the scan computes it: columns 0 to 2 are player 1's. */
  predicate Player1Tile(p: Pos) {
    p.x <= 2
  }

  /**
   * The inclusion test: a caster's enemies stand on the other side, its allies on its own;
   * a third flag of the targets list (the self flag) is never read.
   */
  function Keep(isPlayer1: bool, targetsEnemies: bool, targetsAllies: bool): Pos -> bool {
    (p: Pos) =>
      if isPlayer1 then (targetsEnemies && !Player1Tile(p)) || (targetsAllies && Player1Tile(p))
      else (targetsEnemies && Player1Tile(p)) || (targetsAllies && !Player1Tile(p))
  }

  /** The tiles GetTargetTiles returns, as positions, in x-then-y order. */
  function TargetArea(cursor: Pos, width: int, height: int, isPlayer1: bool, targetsEnemies: bool, targetsAllies: bool): seq<Pos> {
    Filter(Block(Low(cursor.x, width), High(cursor.x, width, Width) + 1,
                 Low(cursor.y, height), High(cursor.y, height, Height) + 1),
           Keep(isPlayer1, targetsEnemies, targetsAllies))
  }

  /**
   * A tile is a target exactly when it lies within the clamped footprint and on the side
   * the flags select; the result is on the board, in x-then-y order, each tile once.
   */
  lemma TargetAreaMembers(cursor: Pos, width: int, height: int, isPlayer1: bool, targetsEnemies: bool, targetsAllies: bool, p: Pos)
    ensures var area := TargetArea(cursor, width, height, isPlayer1, targetsEnemies, targetsAllies);
      p in area <==>
        Max(0, cursor.x - Reach(width)) <= p.x <= Min(Width - 1, cursor.x + Reach(width) + Extra(width))
        && Max(0, cursor.y - Reach(height)) <= p.y <= Min(Height - 1, cursor.y + Reach(height) + Extra(height))
        && (if Player1Tile(p) == isPlayer1 then targetsAllies else targetsEnemies)
    ensures var area := TargetArea(cursor, width, height, isPlayer1, targetsEnemies, targetsAllies);
      (p in area ==> OnBoard(p)) && Sorted(area) && Distinct(area)
  {
    var x0, x1 := Low(cursor.x, width), High(cursor.x, width, Width) + 1;
    var y0, y1 := Low(cursor.y, height), High(cursor.y, height, Height) + 1;
    var keep := Keep(isPlayer1, targetsEnemies, targetsAllies);
    FilterMembers(Block(x0, x1, y0, y1), keep, p);
    BlockMembers(x0, x1, y0, y1, p);
    BlockSorted(x0, x1, y0, y1);
    FilterSorted(Block(x0, x1, y0, y1), keep);
    SortedDistinct(TargetArea(cursor, width, height, isPlayer1, targetsEnemies, targetsAllies));
  }

  /**
   * Away from the board's edges a footprint of positive extent spans exactly that many
   * columns (and, the same way, rows).
   */
  lemma FootprintSpan(c: int, size: int, cells: int)
    requires 1 <= size
    requires 0 <= c - Reach(size) && c + Reach(size) + Extra(size) <= cells - 1
    ensures High(c, size, cells) - Low(c, size) + 1 == size
  {
  }

  /**
   * An extent of 0 still covers two cells, because (0 - 1) / 2 truncates to 0 in C#; with a
   * quotient rounded down it would cover none.
   */
  lemma ZeroExtentSpansTwo(c: int, cells: int)
    requires 0 <= c && c + 1 <= cells - 1
    ensures High(c, 0, cells) - Low(c, 0) + 1 == 2
    ensures (-1) / 2 == -1 && Reach(0) == 0
  {
  }

  // ----- GetTargetTiles ----------------------------------------------------------------

  /** The tile of the grid at position p picks up the tile objects the first loop collects. */
  lemma TilesAreMembers(gm: GridManager, r: seq<Tile>, ps: seq<Pos>, x: int, y: int)
    requires gm.Valid() && gm.TilesAre(r, ps) && 0 <= x < Width && 0 <= y < Height
    ensures gm.grid[x, y] in r <==> Pos(x, y) in ps
  {
    if gm.grid[x, y] in r {
      var i :| 0 <= i < |r| && r[i] == gm.grid[x, y];
      gm.TilesDistinct(ps[i].x, ps[i].y, x, y);
    }
    if Pos(x, y) in ps {
      var i :| 0 <= i < |ps| && ps[i] == Pos(x, y);
      assert r[i] == gm.grid[x, y];
    }
  }

  /**
   * GetTargetTiles: collects the footprint's tiles that pass the side test, then marks each
   * grid tile active exactly when it was collected. A targets list shorter than two flags
   * throws before anything changes.
   */
  method GetTargetTiles(gm: GridManager, cursor: Pos, width: int, height: int, isPlayer1: bool, validTargets: seq<bool>)
    returns (r: seq<Tile>, threw: bool)
    requires gm.Valid()
    modifies gm.tiles`tileActive
    ensures gm.Valid()
    ensures threw <==> |validTargets| < 2
    ensures !threw ==> gm.TilesAre(r, TargetArea(cursor, width, height, isPlayer1, validTargets[0], validTargets[1]))
    ensures !threw ==> forall x, y :: 0 <= x < Width && 0 <= y < Height ==>
      gm.grid[x, y].tileActive == (Pos(x, y) in TargetArea(cursor, width, height, isPlayer1, validTargets[0], validTargets[1]))
    ensures threw ==> forall x, y :: 0 <= x < Width && 0 <= y < Height ==>
      gm.grid[x, y].tileActive == old(gm.grid[x, y].tileActive)
  {
    if |validTargets| < 2 {
      return [], true;
    }
    threw := false;
    var targetsEnemies := validTargets[0];
    var targetsAllies := validTargets[1];
    r := CollectTiles(gm, cursor, width, height, isPlayer1, targetsEnemies, targetsAllies);
    ghost var area := TargetArea(cursor, width, height, isPlayer1, targetsEnemies, targetsAllies);
    var x := 0;
    while x < Width
      invariant 0 <= x <= Width
      invariant gm.Valid() && gm.TilesAre(r, area)
      invariant forall i, j :: 0 <= i < x && 0 <= j < Height ==> gm.grid[i, j].tileActive == (Pos(i, j) in area)
    {
      MarkColumn(gm, x, r, area);
      x := x + 1;
    }
  }

  /** The first loop of GetTargetTiles: the kept tiles of the footprint, column by column. */
  method CollectTiles(gm: GridManager, cursor: Pos, width: int, height: int, isPlayer1: bool, targetsEnemies: bool, targetsAllies: bool)
    returns (r: seq<Tile>)
    requires gm.Valid()
    ensures gm.TilesAre(r, TargetArea(cursor, width, height, isPlayer1, targetsEnemies, targetsAllies))
  {
    var minX, maxX := Low(cursor.x, width), High(cursor.x, width, Width);
    var minY, maxY := Low(cursor.y, height), High(cursor.y, height, Height);
    ghost var keep := Keep(isPlayer1, targetsEnemies, targetsAllies);
    ghost var taken: seq<Pos> := [];
    r := [];
    var x := minX;
    while x <= maxX
      invariant minX <= x <= Max(minX, maxX + 1)
      invariant gm.TilesAre(r, taken) && taken == BlockScan(minX, x, minY, maxY + 1, keep)
    {
      assert BlockScan(minX, x + 1, minY, maxY + 1, keep)
        == BlockScan(minX, x, minY, maxY + 1, keep) + ColumnScan(x, minY, maxY + 1, keep);
      r, taken := CollectColumn(gm, x, minY, maxY, isPlayer1, targetsEnemies, targetsAllies, r, taken);
      x := x + 1;
    }
    if maxX < minX {
      assert x == minX;
      assert taken == [] == BlockScan(minX, maxX + 1, minY, maxY + 1, keep);
    } else {
      assert x == maxX + 1;
    }
    AreaByScan(cursor, width, height, isPlayer1, targetsEnemies, targetsAllies);
  }

  /** The footprint collected column by column is the target area. */
  lemma AreaByScan(cursor: Pos, width: int, height: int, isPlayer1: bool, targetsEnemies: bool, targetsAllies: bool)
    ensures TargetArea(cursor, width, height, isPlayer1, targetsEnemies, targetsAllies)
      == BlockScan(Low(cursor.x, width), High(cursor.x, width, Width) + 1,
                   Low(cursor.y, height), High(cursor.y, height, Height) + 1, Keep(isPlayer1, targetsEnemies, targetsAllies))
  {
    BlockScanFilter(Low(cursor.x, width), High(cursor.x, width, Width) + 1,
                    Low(cursor.y, height), High(cursor.y, height, Height) + 1, Keep(isPlayer1, targetsEnemies, targetsAllies));
  }

  /** The inner loop of the first loop: the kept tiles of column x, from row minY to maxY. */
  method CollectColumn(gm: GridManager, x: int, minY: int, maxY: int, isPlayer1: bool, targetsEnemies: bool, targetsAllies: bool,
                       r0: seq<Tile>, ghost taken0: seq<Pos>)
    returns (r: seq<Tile>, ghost taken: seq<Pos>)
    requires gm.Valid() && 0 <= x < Width && 0 <= minY && maxY < Height && gm.TilesAre(r0, taken0)
    ensures gm.TilesAre(r, taken)
    ensures taken == taken0 + ColumnScan(x, minY, maxY + 1, Keep(isPlayer1, targetsEnemies, targetsAllies))
  {
    ghost var keep := Keep(isPlayer1, targetsEnemies, targetsAllies);
    r, taken := r0, taken0;
    var y := minY;
    while y <= maxY
      invariant minY <= y <= Max(minY, maxY + 1)
      invariant gm.TilesAre(r, taken)
      invariant taken == taken0 + ColumnScan(x, minY, y, keep)
    {
      var currentTile := gm.grid[x, y];
      var isPlayer1Tile := x <= 2;
      var isPlayer2Tile := x >= 3;
      var included := if isPlayer1 then (targetsEnemies && isPlayer2Tile) || (targetsAllies && isPlayer1Tile)
                      else (targetsEnemies && isPlayer1Tile) || (targetsAllies && isPlayer2Tile);
      assert included == keep(Pos(x, y));
      ghost var scanned := ColumnScan(x, minY, y, keep);
      assert ColumnScan(x, minY, y + 1, keep) == scanned + (if included then [Pos(x, y)] else []);
      if included {
        gm.TilesAreAppend(r, taken, currentTile, Pos(x, y));
        assert (taken0 + scanned) + [Pos(x, y)] == taken0 + (scanned + [Pos(x, y)]);
        r, taken := r + [currentTile], taken + [Pos(x, y)];
      } else {
        assert scanned + [] == scanned;
      }
      y := y + 1;
    }
    if maxY < minY {
      assert y == minY;
      assert ColumnScan(x, minY, y, keep) == [] == ColumnScan(x, minY, maxY + 1, keep);
    } else {
      assert y == maxY + 1;
    }
  }

  /** The second loop of GetTargetTiles on column x: each tile is active iff it was collected. */
  method MarkColumn(gm: GridManager, x: int, r: seq<Tile>, ghost area: seq<Pos>)
    requires gm.Valid() && gm.TilesAre(r, area) && 0 <= x < Width
    modifies gm.tiles`tileActive
    ensures gm.Valid() && gm.TilesAre(r, area)
    ensures forall i, j :: 0 <= i < Width && 0 <= j < Height ==>
      gm.grid[i, j].tileActive == if i == x then Pos(i, j) in area else old(gm.grid[i, j].tileActive)
  {
    var y := 0;
    while y < Height
      invariant 0 <= y <= Height
      invariant gm.Valid() && gm.TilesAre(r, area)
      invariant forall i, j :: 0 <= i < Width && 0 <= j < Height ==>
        gm.grid[i, j].tileActive == if i == x && j < y then Pos(i, j) in area else old(gm.grid[i, j].tileActive)
    {
      var currentTile := gm.grid[x, y];
      TilesAreMembers(gm, r, area, x, y);
      forall i, j | 0 <= i < Width && 0 <= j < Height && gm.grid[i, j] == currentTile
        ensures i == x && j == y
      {
        gm.TilesDistinct(i, j, x, y);
      }
      currentTile.SetTileActive(currentTile in r);
      y := y + 1;
    }
  }

  // ----- PerformSpell ------------------------------------------------------------------

  /**
   * The spell on one target card: PerformDamage (the spell's power, with DeathTouch when the
   * spell has that tag) when it damages, then PerformHeal when it heals.
   */
  function SpellOn(w: World, spell: SpellInfo, target: UnitId): (r: World)
    requires Valid(w) && target in w.units
    ensures Valid(r) && LegacyAction.EnergyKept(w, r) && r.occupant.Keys <= w.occupant.Keys
  {
    var damaged := if spell.damage then ActionSystem.Strike(w, target, spell.power, spell.deathTouch) else w;
    if spell.heal then ActionSystem.Mend(damaged, target, spell.power) else damaged
  }

  /** PerformSpell's loop, as a value: the spell on each target card in list order. */
  function Cast(w: World, spell: SpellInfo, targets: seq<UnitId>): (r: World)
    requires Valid(w) && forall t :: t in targets ==> t in w.units
    ensures Valid(r) && LegacyAction.EnergyKept(w, r) && r.occupant.Keys <= w.occupant.Keys
    decreases |targets|
  {
    if targets == [] then w
    else
      var prev := Cast(w, spell, targets[..|targets| - 1]);
      LegacyAction.EnergyKeptTransitive(w, prev, SpellOn(prev, spell, targets[|targets| - 1]));
      SpellOn(prev, spell, targets[|targets| - 1])
  }

  method PerformSpell(w: World, spell: SpellInfo, targetCards: seq<UnitId>) returns (r: World)
    requires Valid(w) && forall t :: t in targetCards ==> t in w.units
    ensures r == Cast(w, spell, targetCards)
  {
    r := w;
    for k := 0 to |targetCards|
      invariant r == Cast(w, spell, targetCards[..k])
    {
      assert targetCards[..k + 1][..k] == targetCards[..k];
      var targetCard := targetCards[k];
      if spell.damage {
        r := ActionSystem.Strike(r, targetCard, spell.power, spell.deathTouch);
      }
      if spell.heal {
        r := ActionSystem.Mend(r, targetCard, spell.power);
      }
    }
    assert targetCards[..|targetCards|] == targetCards;
  }

  /** The vitals a target card ends with: the damage first, then the heal. */
  function SpellVitals(v: UnitStats.Vitals, spell: SpellInfo): UnitStats.Vitals {
    var damaged := if spell.damage then UnitStats.TakeDamage(v, spell.power) else v;
    if spell.heal then UnitStats.Heal(damaged, spell.power) else damaged
  }

  /**
   * The spell changes only its target's health, by the damage and then the heal; the target
   * leaves its tile exactly when the damage alone is lethal, even if the heal brings its
   * health back above 0.
   */
  lemma SpellOnEffect(w: World, spell: SpellInfo, target: UnitId)
    requires Valid(w) && target in w.units
    ensures var r := SpellOn(w, spell, target);
      r.units[target] == w.units[target].(vitals := SpellVitals(w.units[target].vitals, spell))
      && (forall u :: u in w.units && u != target ==> r.units[u] == w.units[u])
      && (TileOf(w, target) in r.occupant <==>
           TileOf(w, target) in w.occupant && !(spell.damage && UnitStats.Dies(w.units[target].vitals, spell.power, spell.deathTouch)))
  {
    TakeDamageEffect(w, target, spell.power, spell.deathTouch);
  }

  /** A unit among the targets (each listed once) ends with its SpellVitals; any other is untouched. */
  lemma {:induction false} CastEffect(w: World, spell: SpellInfo, targets: seq<UnitId>, u: UnitId)
    requires Valid(w) && (forall t :: t in targets ==> t in w.units) && u in w.units && Distinct(targets)
    ensures var r := Cast(w, spell, targets);
      r.units[u] == if u in targets then w.units[u].(vitals := SpellVitals(w.units[u].vitals, spell)) else w.units[u]
    decreases |targets|
  {
    if targets != [] {
      var init := targets[..|targets| - 1];
      var t := targets[|targets| - 1];
      assert Distinct(init);
      CastEffect(w, spell, init, u);
      var prev := Cast(w, spell, init);
      SpellOnEffect(prev, spell, t);
      if u == t {
        assert u !in init;
      } else {
        assert u in targets <==> u in init;
      }
    }
  }

  /**
   * A spell that both damages and heals kills a target whose health is at most its power and
   * then heals the dead card: it leaves its tile with health restored.
   */
  lemma DamageBeforeHeal(w: World, spell: SpellInfo, target: UnitId)
    requires Valid(w) && target in w.units
    requires spell.damage && spell.heal && 0 <= spell.power
    requires var v := w.units[target].vitals; 0 <= v.health <= spell.power && v.health <= v.maxHealth
    ensures var r := SpellOn(w, spell, target);
      TileOf(w, target) !in r.occupant && Health(r, target) == Health(w, target)
  {
    SpellOnEffect(w, spell, target);
  }
}
