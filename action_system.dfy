/**
 * The current action system (Assets/Scripts/CardSystem/ActionSystem/ActionSystem.cs): which
 * tiles an action may reach (ValidTiles, with the provoke override), which units it hits
 * (TargetCards, with the Nova, Cleave and Burst keywords), and how it resolves on each of
 * them (PerformAction: Heal, then Damage with Overkill and Drain, then Provoke).
 */
module ActionSystem {
  import opened Wrappers
  import opened Geometry
  import opened CardData
  import UnitStats
  import opened Battle
  import ActionRanges

  // ----- Valid tiles -------------------------------------------------------------------

  /** The tiles an action's range offers a unit standing at `current`. */
  function RangeTilesFor(current: Pos, isPlayer1: bool, action: ActionInfo): seq<Pos> {
    match action.range
    case Global => ActionRanges.TilesInRange(current, isPlayer1, action.validTargets, ActionRanges.Int32Max)
    case _ => ActionRanges.RangeTiles(current, isPlayer1, action.validTargets, action.range)
  }

  /** The tile of the unit that provoked `id`, when `id` is provoked. */
  function ProvokerTile(w: World, id: UnitId): Option<Pos>
    requires Valid(w) && id in w.units
  {
    var u := w.units[id];
    if u.provoked then Some(TileOf(w, u.provoker.value)) else None
  }

  /** What ValidTiles returns: the range's tiles, or only the provoker's tile when it is among them. */
  function ValidTilesOf(w: World, card: UnitId, action: ActionInfo): seq<Pos>
    requires Valid(w) && card in w.units
  {
    var tiles := RangeTilesFor(TileOf(w, card), w.units[card].isPlayer1, action);
    var provoker := ProvokerTile(w, card);
    if provoker.Some? && provoker.value in tiles then [provoker.value] else tiles
  }

  method ValidTiles(w: World, card: UnitId, action: ActionInfo) returns (validTiles: seq<Pos>)
    requires Valid(w) && card in w.units
    ensures validTiles == ValidTilesOf(w, card, action)
  {
    var current := TileOf(w, card);
    var isPlayer1 := w.units[card].isPlayer1;
    match action.range {
      case Melee =>
        validTiles := ActionRanges.Melee(current, isPlayer1, action.validTargets);
      case Ranged =>
        validTiles := ActionRanges.Ranged(current, isPlayer1, action.validTargets);
      case Reach =>
        validTiles := ActionRanges.Reach(current, isPlayer1, action.validTargets);
      case Global =>
        validTiles := ActionRanges.Global(current, isPlayer1, action.validTargets);
    }
    var u := w.units[card];
    if u.provoked && TileOf(w, u.provoker.value) in validTiles {
      validTiles := [TileOf(w, u.provoker.value)];
    }
  }

  /**
   * A provoked unit whose provoker stands in range may reach only the provoker's tile; otherwise
   * it reaches exactly what its range offers. Either way every valid tile is in range.
   */
  lemma ValidTilesMeaning(w: World, card: UnitId, action: ActionInfo)
    requires Valid(w) && card in w.units
    ensures var range := RangeTilesFor(TileOf(w, card), w.units[card].isPlayer1, action);
      var r := ValidTilesOf(w, card, action);
      var pt := ProvokerTile(w, card);
      && (forall p :: p in r ==> p in range)
      && (pt.Some? && pt.value in range ==> r == [pt.value])
      && (pt.None? || pt.value !in range ==> r == range)
  {
  }

  // ----- Target cards ------------------------------------------------------------------

  /** The unit on p, as a list of zero or one element. */
  function OccupantSeq(w: World, p: Pos): seq<UnitId> {
    if p in w.occupant then [w.occupant[p]] else []
  }

  /** The units on the given tiles, in tile order, skipping empty tiles. */
  function Occupants(w: World, tiles: seq<Pos>): seq<UnitId>
    decreases |tiles|
  {
    if tiles == [] then [] else Occupants(w, tiles[..|tiles| - 1]) + OccupantSeq(w, tiles[|tiles| - 1])
  }

  /** The first occupied tile from index k on. */
  function FirstOccupiedFrom(w: World, tiles: seq<Pos>, k: nat): (r: Option<Pos>)
    ensures r.Some? ==> r.value in w.occupant && r.value in tiles
    decreases |tiles| - k
  {
    if k >= |tiles| then None
    else if tiles[k] in w.occupant then Some(tiles[k])
    else FirstOccupiedFrom(w, tiles, k + 1)
  }

  function FirstOccupied(w: World, tiles: seq<Pos>): (r: Option<Pos>)
    ensures r.Some? ==> r.value in w.occupant && r.value in tiles
  {
    FirstOccupiedFrom(w, tiles, 0)
  }

  /** The first loop of TargetCards: the first valid tile holding a card. */
  method FindTargetTile(w: World, validTiles: seq<Pos>) returns (targetTile: Option<Pos>)
    ensures targetTile == FirstOccupied(w, validTiles)
  {
    targetTile := None;
    for k := 0 to |validTiles|
      invariant FirstOccupied(w, validTiles) == FirstOccupiedFrom(w, validTiles, k)
    {
      if validTiles[k] in w.occupant {
        targetTile := Some(validTiles[k]);
        break;
      }
    }
  }

  /** The first occupied tile is the first tile, in list order, holding a card; None when none does. */
  lemma {:induction false} FirstOccupiedFromMeaning(w: World, tiles: seq<Pos>, k: nat)
    requires k <= |tiles|
    ensures FirstOccupiedFrom(w, tiles, k).None? <==> forall j :: k <= j < |tiles| ==> tiles[j] !in w.occupant
    ensures FirstOccupiedFrom(w, tiles, k).Some? ==>
      exists i :: k <= i < |tiles| && tiles[i] == FirstOccupiedFrom(w, tiles, k).value
        && forall j :: k <= j < i ==> tiles[j] !in w.occupant
    decreases |tiles| - k
  {
    if k < |tiles| && tiles[k] !in w.occupant {
      FirstOccupiedFromMeaning(w, tiles, k + 1);
    }
  }

  lemma FirstOccupiedMeaning(w: World, tiles: seq<Pos>)
    ensures FirstOccupied(w, tiles).None? <==> forall j :: 0 <= j < |tiles| ==> tiles[j] !in w.occupant
    ensures FirstOccupied(w, tiles).Some? ==>
      exists i :: 0 <= i < |tiles| && tiles[i] == FirstOccupied(w, tiles).value
        && forall j :: 0 <= j < i ==> tiles[j] !in w.occupant
  {
    FirstOccupiedFromMeaning(w, tiles, 0);
  }

  /** AddNovaTiles: every valid tile's card, in valid-tile order. */
  method AddNovaTiles(w: World, targetCards: seq<UnitId>, validTiles: seq<Pos>) returns (r: seq<UnitId>)
    ensures r == targetCards + Occupants(w, validTiles)
  {
    r := targetCards;
    for k := 0 to |validTiles|
      invariant r == targetCards + Occupants(w, validTiles[..k])
    {
      assert validTiles[..k + 1][..k] == validTiles[..k];
      var tile := validTiles[k];
      if tile in w.occupant {
        r := r + [w.occupant[tile]];
      }
    }
    assert validTiles[..|validTiles|] == validTiles;
  }

  lemma {:induction false} OccupantsAppend(w: World, a: seq<Pos>, b: seq<Pos>)
    ensures Occupants(w, a + b) == Occupants(w, a) + Occupants(w, b)
    decreases |b|
  {
    if b == [] {
      assert a + b == a;
    } else {
      assert (a + b)[..|a + b| - 1] == a + b[..|b| - 1];
      OccupantsAppend(w, a, b[..|b| - 1]);
    }
  }

  /** A unit is among the occupants of some tiles iff it stands on one of them. */
  lemma {:induction false} OccupantsMembers(w: World, tiles: seq<Pos>, u: UnitId)
    ensures u in Occupants(w, tiles) <==> exists i :: 0 <= i < |tiles| && OccupantAt(w, tiles[i]) == Some(u)
    decreases |tiles|
  {
    if tiles != [] {
      var init := tiles[..|tiles| - 1];
      OccupantsMembers(w, init, u);
      if exists i :: 0 <= i < |tiles| && OccupantAt(w, tiles[i]) == Some(u) {
        var i :| 0 <= i < |tiles| && OccupantAt(w, tiles[i]) == Some(u);
        if i < |init| {
          assert init[i] == tiles[i];
        }
      }
      forall i | 0 <= i < |init| && OccupantAt(w, init[i]) == Some(u)
        ensures OccupantAt(w, tiles[i]) == Some(u)
      {
        assert init[i] == tiles[i];
      }
    }
  }

  /** The occupants' list starts with the card on the first occupied tile, and is empty iff no tile is occupied. */
  lemma {:induction false} OccupantsStart(w: World, tiles: seq<Pos>)
    ensures FirstOccupied(w, tiles).None? ==> Occupants(w, tiles) == []
    ensures FirstOccupied(w, tiles).Some? ==>
      Occupants(w, tiles) != [] && Occupants(w, tiles)[0] == w.occupant[FirstOccupied(w, tiles).value]
    decreases |tiles|
  {
    if tiles != [] {
      assert tiles == [tiles[0]] + tiles[1..];
      OccupantsAppend(w, [tiles[0]], tiles[1..]);
      assert Occupants(w, [tiles[0]]) == OccupantSeq(w, tiles[0]) by {
        assert [tiles[0]][..0] == [];
      }
      OccupantsStart(w, tiles[1..]);
      FirstOccupiedShift(w, tiles, 0);
    }
  }

  /** Searching from index k + 1 of a list is searching from index k of its tail. */
  lemma {:induction false} FirstOccupiedShift(w: World, tiles: seq<Pos>, k: nat)
    requires tiles != []
    ensures FirstOccupiedFrom(w, tiles, k + 1) == FirstOccupiedFrom(w, tiles[1..], k)
    ensures FirstOccupied(w, tiles) == if tiles[0] in w.occupant then Some(tiles[0]) else FirstOccupied(w, tiles[1..])
    decreases |tiles| - k
  {
    if k + 1 < |tiles| {
      FirstOccupiedShift(w, tiles, k + 1);
    }
    if 0 < |tiles| && tiles[0] !in w.occupant {
      FirstOccupiedShift0(w, tiles);
    }
  }

  lemma FirstOccupiedShift0(w: World, tiles: seq<Pos>)
    requires tiles != [] && tiles[0] !in w.occupant
    ensures FirstOccupied(w, tiles) == FirstOccupied(w, tiles[1..])
  {
    FirstOccupiedShiftFrom(w, tiles, 0);
  }

  lemma {:induction false} FirstOccupiedShiftFrom(w: World, tiles: seq<Pos>, k: nat)
    requires tiles != []
    ensures FirstOccupiedFrom(w, tiles, k + 1) == FirstOccupiedFrom(w, tiles[1..], k)
    decreases |tiles| - k
  {
    if k + 1 < |tiles| {
      assert tiles[1..][k] == tiles[k + 1];
      FirstOccupiedShiftFrom(w, tiles, k + 1);
    }
  }

  /** The row offsets Cleave visits, below then above the acting unit. */
  function CleaveOffset(i: int): int {
    if i == 0 then -1 else 1
  }

  /** The card Cleave adds for row y of column x; rows off the board add nothing. */
  function CleaveCell(w: World, x: int, y: int): seq<UnitId> {
    if 0 <= y <= 4 then OccupantSeq(w, Pos(x, y)) else []
  }

  /** What Cleave adds for its first i offsets. */
  function CleaveScan(w: World, x: int, cardY: int, i: int): seq<UnitId>
    decreases i
  {
    if i <= 0 then [] else CleaveScan(w, x, cardY, i - 1) + CleaveCell(w, x, cardY + CleaveOffset(i - 1))
  }

  function CleaveTargets(w: World, x: int, cardY: int): seq<UnitId> {
    CleaveScan(w, x, cardY, 2)
  }

  method AddCleaveTiles(w: World, card: UnitId, targetTile: Pos, targetCards: seq<UnitId>) returns (r: seq<UnitId>)
    requires Valid(w) && card in w.units && targetTile in w.occupant
    ensures r == targetCards + CleaveTargets(w, TileOf(w, w.occupant[targetTile]).x, TileOf(w, card).y)
  {
    var targetX := TileOf(w, w.occupant[targetTile]).x;
    var cardY := TileOf(w, card).y;
    var maxRows := 5;
    var rowOffsets := [-1, 1];
    r := targetCards;
    for i := 0 to |rowOffsets|
      invariant r == targetCards + CleaveScan(w, targetX, cardY, i)
    {
      var newY := cardY + rowOffsets[i];
      if newY < 0 || newY > 4 {
        continue;
      }
      var tile := Pos(targetX, newY);
      if newY >= 0 && newY < maxRows && tile in w.occupant {
        r := r + [w.occupant[tile]];
      }
    }
  }

  /** Cleave hits exactly the cards in the target's column on the rows just below and above the acting unit's row. */
  lemma CleaveMembers(w: World, x: int, cardY: int, u: UnitId)
    ensures u in CleaveTargets(w, x, cardY) <==>
      exists y :: (y == cardY - 1 || y == cardY + 1) && 0 <= y < Height && OccupantAt(w, Pos(x, y)) == Some(u)
  {
    var a, b := cardY - 1, cardY + 1;
    assert CleaveTargets(w, x, cardY) == CleaveCell(w, x, a) + CleaveCell(w, x, b);
    if exists y :: (y == cardY - 1 || y == cardY + 1) && 0 <= y < Height && OccupantAt(w, Pos(x, y)) == Some(u) {
      var y :| (y == cardY - 1 || y == cardY + 1) && 0 <= y < Height && OccupantAt(w, Pos(x, y)) == Some(u);
      assert u in CleaveCell(w, x, y);
    }
    if u in CleaveCell(w, x, a) {
      assert OccupantAt(w, Pos(x, a)) == Some(u);
    }
    if u in CleaveCell(w, x, b) {
      assert OccupantAt(w, Pos(x, b)) == Some(u);
    }
  }

  /** The column i steps from t in the acting player's direction. */
  function BurstColumn(t: Pos, isPlayer1: bool, i: int): int {
    if isPlayer1 then t.x + i else t.x - i
  }

  /** How many columns lie beyond t, in the acting player's direction, before the board's edge. */
  function BurstSteps(t: Pos, isPlayer1: bool): int {
    if isPlayer1 then Width - 1 - t.x else t.x
  }

  /** What Burst adds for its first n steps. */
  function BurstRow(w: World, t: Pos, isPlayer1: bool, n: int): seq<UnitId>
    decreases n
  {
    if n <= 0 then [] else BurstRow(w, t, isPlayer1, n - 1) + OccupantSeq(w, Pos(BurstColumn(t, isPlayer1, n), t.y))
  }

  function BurstTargets(w: World, t: Pos, isPlayer1: bool): seq<UnitId> {
    BurstRow(w, t, isPlayer1, BurstSteps(t, isPlayer1))
  }

  method AddBurstTiles(w: World, card: UnitId, targetTile: Pos, targetCards: seq<UnitId>) returns (r: seq<UnitId>)
    requires card in w.units && OnBoard(targetTile)
    ensures r == targetCards + BurstTargets(w, targetTile, w.units[card].isPlayer1)
  {
    var y := targetTile.y;
    var isPlayer1 := w.units[card].isPlayer1;
    var direction := if isPlayer1 then 1 else -1;
    var maxColumns := 6;
    r := targetCards;
    var i := 1;
    while i <= maxColumns
      invariant 1 <= i <= maxColumns + 1
      invariant r == targetCards + BurstRow(w, targetTile, isPlayer1, Min(i - 1, BurstSteps(targetTile, isPlayer1)))
    {
      var newX := targetTile.x + direction * i;
      assert newX == BurstColumn(targetTile, isPlayer1, i);
      if newX < 0 || newX >= maxColumns {
        break;
      }
      var tile := Pos(newX, y);
      if tile in w.occupant {
        r := r + [w.occupant[tile]];
      }
      i := i + 1;
    }
  }

  lemma {:induction false} BurstRowMembers(w: World, t: Pos, isPlayer1: bool, n: int, u: UnitId)
    ensures u in BurstRow(w, t, isPlayer1, n) <==>
      exists i :: 1 <= i <= n && OccupantAt(w, Pos(BurstColumn(t, isPlayer1, i), t.y)) == Some(u)
    decreases n
  {
    if n > 0 {
      BurstRowMembers(w, t, isPlayer1, n - 1, u);
      var last := Pos(BurstColumn(t, isPlayer1, n), t.y);
      assert u in OccupantSeq(w, last) <==> OccupantAt(w, last) == Some(u);
    }
  }

  /** Burst hits exactly the cards on the target's row beyond the target, in the acting player's direction. */
  lemma BurstMembers(w: World, t: Pos, isPlayer1: bool, u: UnitId)
    requires OnBoard(t)
    ensures u in BurstTargets(w, t, isPlayer1) <==>
      exists x :: 0 <= x < Width && (if isPlayer1 then x > t.x else x < t.x) && OccupantAt(w, Pos(x, t.y)) == Some(u)
  {
    var n := BurstSteps(t, isPlayer1);
    BurstRowMembers(w, t, isPlayer1, n, u);
    if exists i :: 1 <= i <= n && OccupantAt(w, Pos(BurstColumn(t, isPlayer1, i), t.y)) == Some(u) {
      var i :| 1 <= i <= n && OccupantAt(w, Pos(BurstColumn(t, isPlayer1, i), t.y)) == Some(u);
      var x := BurstColumn(t, isPlayer1, i);
      assert 0 <= x < Width && (if isPlayer1 then x > t.x else x < t.x) && OccupantAt(w, Pos(x, t.y)) == Some(u);
    }
    if exists x :: 0 <= x < Width && (if isPlayer1 then x > t.x else x < t.x) && OccupantAt(w, Pos(x, t.y)) == Some(u) {
      var x :| 0 <= x < Width && (if isPlayer1 then x > t.x else x < t.x) && OccupantAt(w, Pos(x, t.y)) == Some(u);
      var i := if isPlayer1 then x - t.x else t.x - x;
      assert BurstColumn(t, isPlayer1, i) == x;
      assert 1 <= i <= n && OccupantAt(w, Pos(BurstColumn(t, isPlayer1, i), t.y)) == Some(u);
    }
  }

  /** What TargetCards returns. */
  function TargetCardsOf(w: World, card: UnitId, action: ActionInfo): seq<UnitId>
    requires Valid(w) && card in w.units
  {
    TargetsAmong(w, card, action, ValidTilesOf(w, card, action))
  }

  /** What TargetCards returns once the valid tiles are known. */
  function TargetsAmong(w: World, card: UnitId, action: ActionInfo, tiles: seq<Pos>): seq<UnitId>
    requires Valid(w) && card in w.units
  {
    match FirstOccupied(w, tiles)
    case None => []
    case Some(t) =>
      if HasKeyword(action, Keyword.Nova) then Occupants(w, tiles) else SpreadFrom(w, card, action, t)
  }

  /** Without Nova: the card on the target tile, then Cleave's cards, then Burst's. */
  function SpreadFrom(w: World, card: UnitId, action: ActionInfo, t: Pos): seq<UnitId>
    requires Valid(w) && card in w.units && t in w.occupant
  {
    [w.occupant[t]]
    + (if HasKeyword(action, Keyword.Cleave) then CleaveTargets(w, TileOf(w, w.occupant[t]).x, TileOf(w, card).y) else [])
    + (if HasKeyword(action, Keyword.Burst) then BurstTargets(w, t, w.units[card].isPlayer1) else [])
  }

  method TargetCards(w: World, card: UnitId, action: ActionInfo) returns (targetCards: seq<UnitId>)
    requires Valid(w) && card in w.units
    ensures targetCards == TargetCardsOf(w, card, action)
  {
    var validTiles := ValidTiles(w, card, action);
    targetCards := TargetsIn(w, card, action, validTiles);
  }

  /** TargetCards after ValidTiles: the first occupied tile, then the keywords' extra cards. */
  method TargetsIn(w: World, card: UnitId, action: ActionInfo, validTiles: seq<Pos>) returns (targetCards: seq<UnitId>)
    requires Valid(w) && card in w.units
    ensures targetCards == TargetsAmong(w, card, action, validTiles)
  {
    targetCards := [];
    var targetTile := FindTargetTile(w, validTiles);
    if targetTile.None? {
      return;
    }
    if HasKeyword(action, Keyword.Nova) {
      targetCards := AddNovaTiles(w, targetCards, validTiles);
    } else {
      targetCards := Spread(w, card, action, targetTile.value, targetCards);
    }
  }

  /** The non-Nova branch of TargetCards. */
  method Spread(w: World, card: UnitId, action: ActionInfo, targetTile: Pos, targetCards: seq<UnitId>) returns (r: seq<UnitId>)
    requires Valid(w) && card in w.units && targetTile in w.occupant
    ensures r == targetCards + SpreadFrom(w, card, action, targetTile)
  {
    ghost var head := [w.occupant[targetTile]];
    ghost var cleave := if HasKeyword(action, Keyword.Cleave)
      then CleaveTargets(w, TileOf(w, w.occupant[targetTile]).x, TileOf(w, card).y) else [];
    ghost var burst := if HasKeyword(action, Keyword.Burst) then BurstTargets(w, targetTile, w.units[card].isPlayer1) else [];
    r := targetCards + [w.occupant[targetTile]];
    if HasKeyword(action, Keyword.Cleave) {
      r := AddCleaveTiles(w, card, targetTile, r);
    }
    assert r == targetCards + head + cleave;
    ghost var beforeBurst := r;
    if HasKeyword(action, Keyword.Burst) {
      r := AddBurstTiles(w, card, targetTile, r);
    }
    assert r == beforeBurst + burst;
    assert SpreadFrom(w, card, action, targetTile) == head + cleave + burst;
    AppendAssoc(targetCards, head, cleave, burst);
  }

  lemma AppendAssoc<T>(a: seq<T>, b: seq<T>, c: seq<T>, d: seq<T>)
    ensures a + b + c + d == a + (b + c + d)
  {
  }

  /**
   * TargetCards finds nothing iff no valid tile holds a card; otherwise, with or without Nova,
   * its first card is the one on the first occupied valid tile.
   */
  lemma TargetCardsStart(w: World, card: UnitId, action: ActionInfo)
    requires Valid(w) && card in w.units
    ensures var tiles := ValidTilesOf(w, card, action);
      var r := TargetCardsOf(w, card, action);
      && (r == [] <==> forall j :: 0 <= j < |tiles| ==> tiles[j] !in w.occupant)
      && (r != [] ==> exists i :: 0 <= i < |tiles| && tiles[i] in w.occupant && r[0] == w.occupant[tiles[i]]
                           && forall j :: 0 <= j < i ==> tiles[j] !in w.occupant)
  {
    var tiles := ValidTilesOf(w, card, action);
    FirstOccupiedMeaning(w, tiles);
    OccupantsStart(w, tiles);
  }

  /** With Nova, TargetCards hits exactly the cards on the valid tiles. */
  lemma NovaTargets(w: World, card: UnitId, action: ActionInfo, u: UnitId)
    requires Valid(w) && card in w.units && HasKeyword(action, Keyword.Nova)
    ensures var tiles := ValidTilesOf(w, card, action);
      u in TargetCardsOf(w, card, action) <==> exists i :: 0 <= i < |tiles| && OccupantAt(w, tiles[i]) == Some(u)
  {
    var tiles := ValidTilesOf(w, card, action);
    OccupantsMembers(w, tiles, u);
    OccupantsStart(w, tiles);
  }

  /** Every card TargetCards returns is a unit standing on the board. */
  lemma TargetCardsOnBoard(w: World, card: UnitId, action: ActionInfo)
    requires Valid(w) && card in w.units
    ensures forall i :: 0 <= i < |TargetCardsOf(w, card, action)| ==> TargetCardsOf(w, card, action)[i] in w.occupant.Values
  {
    var tiles := ValidTilesOf(w, card, action);
    var r := TargetCardsOf(w, card, action);
    forall i | 0 <= i < |r| ensures r[i] in w.occupant.Values {
      var u := r[i];
      assert u in r;
      match FirstOccupied(w, tiles)
      case None =>
      case Some(t) =>
        if HasKeyword(action, Keyword.Nova) {
          OccupantsMembers(w, tiles, u);
        } else {
          var x, cy := TileOf(w, w.occupant[t]).x, TileOf(w, card).y;
          var head := [w.occupant[t]];
          var cleave := if HasKeyword(action, Keyword.Cleave) then CleaveTargets(w, x, cy) else [];
          var burst := if HasKeyword(action, Keyword.Burst) then BurstTargets(w, t, w.units[card].isPlayer1) else [];
          assert r == head + cleave + burst;
          if u in cleave {
            CleaveMembers(w, x, cy, u);
          } else if u in burst {
            BurstMembers(w, t, w.units[card].isPlayer1, u);
          }
        }
    }
  }

  /**
   * A provoked unit whose provoker stands in range, acting without Cleave or Burst, can only hit
   * the card on the provoker's tile.
   */
  lemma ProvokedTargets(w: World, card: UnitId, action: ActionInfo)
    requires Valid(w) && card in w.units
    requires ProvokerTile(w, card).Some?
    requires ProvokerTile(w, card).value in RangeTilesFor(TileOf(w, card), w.units[card].isPlayer1, action)
    requires !HasKeyword(action, Keyword.Cleave) && !HasKeyword(action, Keyword.Burst)
    ensures var pt := ProvokerTile(w, card).value;
      TargetCardsOf(w, card, action) == OccupantSeq(w, pt)
  {
    var pt := ProvokerTile(w, card).value;
    assert ValidTilesOf(w, card, action) == [pt];
    assert Occupants(w, [pt]) == OccupantSeq(w, pt) by {
      assert [pt][..0] == [];
    }
    FirstOccupiedShift(w, [pt], 0);
  }

  // ----- Resolving an action -----------------------------------------------------------

  /** UnitCard.TakeDamage on a unit in play: only that unit's health, and its tile when it dies, change. */
  function Strike(w: World, id: UnitId, amount: int, deathTouch: bool): (r: World)
    requires Valid(w) && id in w.units
    ensures Valid(r) && r.units.Keys == w.units.Keys && r.occupant.Keys <= w.occupant.Keys
    ensures r.units[id] == w.units[id].(vitals := UnitStats.TakeDamage(w.units[id].vitals, amount))
    ensures forall u :: u in w.units && u != id ==> r.units[u] == w.units[u]
    ensures forall p :: p in w.occupant && p != TileOf(w, id) ==> p in r.occupant && r.occupant[p] == w.occupant[p]
  {
    TakeDamageEffect(w, id, amount, deathTouch);
    ValidPreserved(w, id, amount, deathTouch, id);
    TakeDamage(w, id, amount, deathTouch)
  }

  /** UnitCard.Heal on a unit in play: only that unit's health changes. */
  function Mend(w: World, id: UnitId, amount: int): (r: World)
    requires Valid(w) && id in w.units
    ensures Valid(r) && r.units.Keys == w.units.Keys && r.occupant == w.occupant
    ensures r.units[id] == w.units[id].(vitals := UnitStats.Heal(w.units[id].vitals, amount))
    ensures forall u :: u in w.units && u != id ==> r.units[u] == w.units[u]
  {
    ValidPreserved(w, id, amount, false, id);
    HealUnit(w, id, amount)
  }

  /** PerformHeal: the target heals by the acting unit's power. */
  function PerformHeal(w: World, card: UnitId, target: UnitId): (r: World)
    requires Valid(w) && card in w.units && target in w.units
    ensures Valid(r) && r.units.Keys == w.units.Keys && r.occupant == w.occupant
    ensures r.units[target].vitals == UnitStats.Heal(w.units[target].vitals, w.units[card].power)
    ensures forall u :: u in w.units && u != target ==> r.units[u] == w.units[u]
  {
    Mend(w, target, w.units[card].power)
  }

  /** The tile Overkill splashes onto: the next column of the target's row. */
  function SplashTile(w: World, target: UnitId): Pos
    requires Valid(w) && target in w.units
  {
    Pos(TileOf(w, target).x + 1, TileOf(w, target).y)
  }

  /** Whether a hit on the target spills over: Overkill, and less health left than the power. */
  predicate Splashes(w: World, card: UnitId, target: UnitId, action: ActionInfo)
    requires card in w.units && target in w.units
  {
    HasKeyword(action, Keyword.Overkill) && Health(w, target) < w.units[card].power
  }

  /** The splash of Overkill: the card on the splash tile takes `excess`. */
  function Splash(hit: World, w: World, target: UnitId, excess: int, deathTouch: bool): (r: World)
    requires Valid(w) && target in w.units && SplashTile(w, target) in w.occupant
    requires Valid(hit) && hit.units.Keys == w.units.Keys
    requires forall p :: p in w.occupant && p != TileOf(w, target) ==> p in hit.occupant && hit.occupant[p] == w.occupant[p]
    ensures Valid(r) && r.units.Keys == w.units.Keys && r.occupant.Keys <= hit.occupant.Keys
  {
    var tile := SplashTile(w, target);
    assert tile in hit.occupant;
    Strike(hit, hit.occupant[tile], excess, deathTouch)
  }

  /**
   * PerformDamage: the target takes the power (with DeathTouch when the action has it); with
   * Overkill, the card on the splash tile takes what the target's health could not absorb; with
   * Drain, the acting unit then heals by the power. A splash needs a card on the splash tile:
   * the source indexes the grid and dereferences that card without a check.
   */
  function PerformDamage(w: World, card: UnitId, target: UnitId, action: ActionInfo): (r: World)
    requires Valid(w) && card in w.units && target in w.units
    requires Splashes(w, card, target, action) ==> SplashTile(w, target) in w.occupant
    ensures Valid(r) && r.units.Keys == w.units.Keys && r.occupant.Keys <= w.occupant.Keys
  {
    var damageDealt := w.units[card].power;
    var targetHealth := Health(w, target);
    var deathTouch := HasKeyword(action, Keyword.DeathTouch);
    var hit := Strike(w, target, damageDealt, deathTouch);
    var splashed :=
      if HasKeyword(action, Keyword.Overkill) && targetHealth < damageDealt
      then Splash(hit, w, target, damageDealt - targetHealth, deathTouch)
      else hit;
    if HasKeyword(action, Keyword.Drain) then Mend(splashed, card, damageDealt) else splashed
  }

  /** PerformProvoke: the target is provoked by the acting unit. */
  function PerformProvoke(w: World, card: UnitId, target: UnitId): (r: World)
    requires Valid(w) && card in w.units && target in w.units
    ensures Valid(r) && r.units.Keys == w.units.Keys && r.occupant == w.occupant
    ensures r.units[target] == w.units[target].(provoked := true, provoker := Some(card))
    ensures forall u :: u in w.units && u != target ==> r.units[u] == w.units[u]
  {
    ValidPreserved(w, target, 0, false, card);
    Battle.Provoke(w, target, card)
  }

  /** The state the Damage effect starts from: after the Heal effect, when the action heals. */
  function Healed(w: World, card: UnitId, target: UnitId, action: ActionInfo): (r: World)
    requires Valid(w) && card in w.units && target in w.units
    ensures Valid(r) && r.units.Keys == w.units.Keys && r.occupant == w.occupant
    ensures r.units[card].power == w.units[card].power
    ensures forall u :: u in w.units ==> r.units[u].tile == w.units[u].tile
  {
    if HasKeyword(action, Keyword.Heal) then PerformHeal(w, card, target) else w
  }

  /** The action can resolve on the target without the splash dereferencing an empty tile. */
  predicate StepSafe(w: World, card: UnitId, target: UnitId, action: ActionInfo)
    requires Valid(w) && card in w.units && target in w.units
  {
    (HasKeyword(action, Keyword.Damage) && Splashes(Healed(w, card, target, action), card, target, action))
    ==> SplashTile(w, target) in w.occupant
  }

  /** One pass of PerformAction's loop: Heal, then Damage, then Provoke, each when the action has it. */
  function ApplyOne(w: World, card: UnitId, target: UnitId, action: ActionInfo): (r: World)
    requires Valid(w) && card in w.units && target in w.units && StepSafe(w, card, target, action)
    ensures Valid(r) && r.units.Keys == w.units.Keys && r.occupant.Keys <= w.occupant.Keys
  {
    var healed := Healed(w, card, target, action);
    assert SplashTile(healed, target) == SplashTile(w, target);
    var damaged := if HasKeyword(action, Keyword.Damage) then PerformDamage(healed, card, target, action) else healed;
    if HasKeyword(action, Keyword.Provoke) then PerformProvoke(damaged, card, target) else damaged
  }

  /**
   * PerformAction over the first targets in list order; None when a splash would hit an empty
   * tile, where the source throws.
   */
  function Resolve(w: World, card: UnitId, action: ActionInfo, targets: seq<UnitId>): (r: Option<World>)
    requires Valid(w) && card in w.units && forall i :: 0 <= i < |targets| ==> targets[i] in w.units
    ensures r.Some? ==> Valid(r.value) && r.value.units.Keys == w.units.Keys && r.value.occupant.Keys <= w.occupant.Keys
    decreases |targets|
  {
    if targets == [] then Some(w) else
      var prev := Resolve(w, card, action, targets[..|targets| - 1]);
      var target := targets[|targets| - 1];
      if prev.Some? && StepSafe(prev.value, card, target, action) then Some(ApplyOne(prev.value, card, target, action))
      else None
  }

  /**
   * PerformAction: the passes over the target cards in list order; None when a pass throws at
   * the Overkill splash.
   */
  method PerformAction(w: World, card: UnitId, action: ActionInfo, targetCards: seq<UnitId>) returns (r: Option<World>)
    requires Valid(w) && card in w.units && forall i :: 0 <= i < |targetCards| ==> targetCards[i] in w.units
    ensures r == Resolve(w, card, action, targetCards)
  {
    var current := w;
    for k := 0 to |targetCards|
      invariant Resolve(w, card, action, targetCards[..k]) == Some(current)
    {
      assert targetCards[..k + 1][..k] == targetCards[..k];
      if !StepSafe(current, card, targetCards[k], action) {
        ResolveStops(w, card, action, targetCards, k + 1);
        return None;
      }
      current := PerformOn(current, card, targetCards[k], action);
    }
    assert targetCards[..|targetCards|] == targetCards;
    return Some(current);
  }

  /** The body of PerformAction's loop for one target card. */
  method PerformOn(w: World, card: UnitId, targetCard: UnitId, action: ActionInfo) returns (r: World)
    requires Valid(w) && card in w.units && targetCard in w.units && StepSafe(w, card, targetCard, action)
    ensures r == ApplyOne(w, card, targetCard, action)
  {
    r := w;
    if HasKeyword(action, Keyword.Heal) {
      r := PerformHeal(r, card, targetCard);
    }
    assert r == Healed(w, card, targetCard, action);
    if HasKeyword(action, Keyword.Damage) {
      r := PerformDamage(r, card, targetCard, action);
    }
    if HasKeyword(action, Keyword.Provoke) {
      r := PerformProvoke(r, card, targetCard);
    }
  }

  /** Resolving one more target of the list is one more pass over the state reached so far. */
  lemma ResolveStep(w: World, card: UnitId, action: ActionInfo, targets: seq<UnitId>, k: nat, r: World)
    requires Valid(w) && card in w.units && forall i :: 0 <= i < |targets| ==> targets[i] in w.units
    requires k < |targets| && Resolve(w, card, action, targets[..k]) == Some(r)
    requires Resolve(w, card, action, targets[..k + 1]).Some?
    ensures Valid(r) && card in r.units && targets[k] in r.units && StepSafe(r, card, targets[k], action)
    ensures Resolve(w, card, action, targets[..k + 1]) == Some(ApplyOne(r, card, targets[k], action))
  {
    assert targets[..k + 1][..k] == targets[..k];
  }

  /** If the whole list resolves, so does every prefix of it. */
  lemma {:induction false} ResolvePrefix(w: World, card: UnitId, action: ActionInfo, targets: seq<UnitId>, k: nat)
    requires Valid(w) && card in w.units && forall i :: 0 <= i < |targets| ==> targets[i] in w.units
    requires k <= |targets| && Resolve(w, card, action, targets).Some?
    ensures Resolve(w, card, action, targets[..k]).Some?
    decreases |targets|
  {
    if k == |targets| {
      assert targets[..k] == targets;
    } else {
      var init := targets[..|targets| - 1];
      assert init[..k] == targets[..k];
      ResolvePrefix(w, card, action, init, k);
    }
  }

  /** Once a prefix of the list fails to resolve, so does the whole list. */
  lemma {:induction false} ResolveStops(w: World, card: UnitId, action: ActionInfo, targets: seq<UnitId>, k: nat)
    requires Valid(w) && card in w.units && forall i :: 0 <= i < |targets| ==> targets[i] in w.units
    requires k <= |targets| && Resolve(w, card, action, targets[..k]).None?
    ensures Resolve(w, card, action, targets).None?
    decreases |targets|
  {
    if k == |targets| {
      assert targets[..k] == targets;
    } else {
      var init := targets[..|targets| - 1];
      assert init[..k] == targets[..k];
      ResolveStops(w, card, action, init, k);
    }
  }

  /** The card a splash off the target lands on differs from the target. */
  lemma SplashMissesTarget(w: World, target: UnitId)
    requires Valid(w) && target in w.units && SplashTile(w, target) in w.occupant
    ensures w.occupant[SplashTile(w, target)] != target
  {
    assert w.units[w.occupant[SplashTile(w, target)]].tile == Some(SplashTile(w, target));
  }

  /** PerformDamage's effect on the target: it loses exactly the acting unit's power, and keeps its provoke state. */
  lemma DamageEffectOnTarget(w: World, card: UnitId, target: UnitId, action: ActionInfo)
    requires Valid(w) && card in w.units && target in w.units && target != card
    requires Splashes(w, card, target, action) ==> SplashTile(w, target) in w.occupant
    ensures var r := PerformDamage(w, card, target, action);
      Health(r, target) == Health(w, target) - w.units[card].power
      && r.units[target].provoked == w.units[target].provoked
      && r.units[target].provoker == w.units[target].provoker
  {
    if Splashes(w, card, target, action) {
      SplashMissesTarget(w, target);
    }
  }

  /**
   * What one pass does to a target other than the acting unit: it heals by the power (when the
   * action heals), then loses exactly the power (when it damages), then is provoked by the
   * acting unit (when it provokes). A splash never lands on the target itself.
   */
  lemma TargetEffect(w: World, card: UnitId, target: UnitId, action: ActionInfo)
    requires Valid(w) && card in w.units && target in w.units && StepSafe(w, card, target, action)
    requires target != card
    ensures var r := ApplyOne(w, card, target, action);
      var power := w.units[card].power;
      var healed := if HasKeyword(action, Keyword.Heal) then UnitStats.Heal(w.units[target].vitals, power) else w.units[target].vitals;
      && Health(r, target) == healed.health - (if HasKeyword(action, Keyword.Damage) then power else 0)
      && r.units[target].provoked == (w.units[target].provoked || HasKeyword(action, Keyword.Provoke))
      && r.units[target].provoker == (if HasKeyword(action, Keyword.Provoke) then Some(card) else w.units[target].provoker)
  {
    var h := Healed(w, card, target, action);
    if HasKeyword(action, Keyword.Damage) {
      DamageEffectOnTarget(h, card, target, action);
    }
  }

  /**
   * Overkill: a target left with less health than the power passes the rest onto the card on
   * the splash tile; a target with exactly the power's health (or more) passes nothing on.
   */
  lemma OverkillEffect(w: World, card: UnitId, target: UnitId, action: ActionInfo)
    requires Valid(w) && card in w.units && target in w.units && target != card
    requires HasKeyword(action, Keyword.Overkill)
    requires Splashes(w, card, target, action) ==> SplashTile(w, target) in w.occupant
    ensures var r := PerformDamage(w, card, target, action);
      var power := w.units[card].power;
      var health := Health(w, target);
      && (health < power ==>
            var s := w.occupant[SplashTile(w, target)];
            s != target && (s != card ==> Health(r, s) == Health(w, s) - (power - health)))
      && (health >= power ==>
            forall u :: u in w.units && u != target && u != card ==> r.units[u] == w.units[u])
  {
    if Health(w, target) < w.units[card].power {
      SplashMissesTarget(w, target);
    }
  }

  /**
   * Drain: after the damage, the acting unit heals by the power; without Drain it is untouched,
   * as long as it is neither the target nor the splash's victim.
   */
  lemma DrainEffect(w: World, card: UnitId, target: UnitId, action: ActionInfo)
    requires Valid(w) && card in w.units && target in w.units && target != card
    requires Splashes(w, card, target, action) ==> SplashTile(w, target) in w.occupant
    requires SplashTile(w, target) in w.occupant ==> w.occupant[SplashTile(w, target)] != card
    ensures var r := PerformDamage(w, card, target, action);
      r.units[card].vitals ==
        if HasKeyword(action, Keyword.Drain) then UnitStats.Heal(w.units[card].vitals, w.units[card].power)
        else w.units[card].vitals
  {
  }

  /**
   * Without Overkill, resolving an action on a list of targets leaves every unit that is
   * neither the acting unit nor one of the targets exactly as it was.
   */
  lemma {:induction false} ResolveFrame(w: World, card: UnitId, action: ActionInfo, targets: seq<UnitId>, u: UnitId)
    requires Valid(w) && card in w.units && forall i :: 0 <= i < |targets| ==> targets[i] in w.units
    requires Resolve(w, card, action, targets).Some? && !HasKeyword(action, Keyword.Overkill)
    requires u in w.units && u != card && u !in targets
    ensures Resolve(w, card, action, targets).value.units[u] == w.units[u]
    decreases |targets|
  {
    if targets != [] {
      var init := targets[..|targets| - 1];
      ResolvePrefix(w, card, action, targets, |targets| - 1);
      ResolveFrame(w, card, action, init, u);
      var prev := Resolve(w, card, action, init).value;
      var target := targets[|targets| - 1];
      ApplyOneFrame(prev, card, target, action, u);
    }
  }

  /** Without Overkill, one pass touches only the acting unit and the target. */
  lemma ApplyOneFrame(w: World, card: UnitId, target: UnitId, action: ActionInfo, u: UnitId)
    requires Valid(w) && card in w.units && target in w.units && StepSafe(w, card, target, action)
    requires !HasKeyword(action, Keyword.Overkill) && u in w.units && u != card && u != target
    ensures ApplyOne(w, card, target, action).units[u] == w.units[u]
  {
  }
}
