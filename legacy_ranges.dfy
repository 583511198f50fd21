/**
 * The earlier revision of the action ranges (Assets/Scripts/ActionSystem/ActionRanges.cs):
 * Melee and Reach take the clamped 3x3 neighbourhood, Ranged scans from the unit's back edge
 * to the enemy frontline and puts the tile behind an empty enemy tile before it, and Global
 * takes the whole board. Tiles are named by their grid positions; `occupied` is the set of
 * tiles holding a card.
 */
module LegacyRanges {
  import opened Geometry
  import opened CardData
  import opened ActionRanges

  function EligibleKeep(current: Pos, isPlayer1: bool, vt: ValidTargets): Pos -> bool {
    (p: Pos) => Eligible(current, isPlayer1, vt, p)
  }

  /** The eligible tiles of column x from row y0 to row y1 inclusive, in ascending rows. */
  method EligibleInColumn(currentPosition: Pos, isPlayer1: bool, validTargets: ValidTargets, x: int, yMin: int, yMax: int)
    returns (validTiles: seq<Pos>)
    ensures validTiles == ColumnScan(x, yMin, yMax + 1, EligibleKeep(currentPosition, isPlayer1, validTargets))
  {
    validTiles := [];
    var y := yMin;
    while y <= yMax
      invariant yMin <= y && (y <= yMax + 1 || y == yMin)
      invariant validTiles == ColumnScan(x, yMin, y, EligibleKeep(currentPosition, isPlayer1, validTargets))
    {
      if Pos(x, y) == currentPosition && validTargets.self {
        validTiles := validTiles + [Pos(x, y)];
      } else if IsPlayer1Column(x) != isPlayer1 && validTargets.enemies {
        validTiles := validTiles + [Pos(x, y)];
      } else if IsPlayer1Column(x) == isPlayer1 && validTargets.allies && Pos(x, y) != currentPosition {
        validTiles := validTiles + [Pos(x, y)];
      }
      y := y + 1;
    }
    assert ColumnScan(x, yMin, y, EligibleKeep(currentPosition, isPlayer1, validTargets))
      == ColumnScan(x, yMin, yMax + 1, EligibleKeep(currentPosition, isPlayer1, validTargets));
  }

  /** The eligible tiles of the rectangle [xMin, xMax] by [yMin, yMax], column by column. */
  method EligibleInBlock(currentPosition: Pos, isPlayer1: bool, validTargets: ValidTargets, xMin: int, xMax: int, yMin: int, yMax: int)
    returns (validTiles: seq<Pos>)
    ensures validTiles == Filter(Block(xMin, xMax + 1, yMin, yMax + 1), EligibleKeep(currentPosition, isPlayer1, validTargets))
  {
    ghost var keep := EligibleKeep(currentPosition, isPlayer1, validTargets);
    ghost var y1 := yMax + 1;
    validTiles := [];
    var x := xMin;
    while x <= xMax
      invariant xMin <= x && (x <= xMax + 1 || x == xMin)
      invariant validTiles == BlockScan(xMin, x, yMin, y1, keep)
    {
      var column := EligibleInColumn(currentPosition, isPlayer1, validTargets, x, yMin, yMax);
      validTiles := validTiles + column;
      x := x + 1;
    }
    assert BlockScan(xMin, x, yMin, y1, keep) == BlockScan(xMin, xMax + 1, yMin, y1, keep);
    BlockScanFilter(xMin, xMax + 1, yMin, y1, keep);
  }

  lemma EligibleBlockMembers(current: Pos, isPlayer1: bool, vt: ValidTargets, x0: int, x1: int, y0: int, y1: int, p: Pos)
    ensures p in Filter(Block(x0, x1, y0, y1), EligibleKeep(current, isPlayer1, vt)) <==>
      x0 <= p.x < x1 && y0 <= p.y < y1 && Eligible(current, isPlayer1, vt, p)
  {
    FilterMembers(Block(x0, x1, y0, y1), EligibleKeep(current, isPlayer1, vt), p);
    BlockMembers(x0, x1, y0, y1, p);
  }

  lemma EligibleBlockOrder(current: Pos, isPlayer1: bool, vt: ValidTargets, x0: int, x1: int, y0: int, y1: int)
    ensures Sorted(Filter(Block(x0, x1, y0, y1), EligibleKeep(current, isPlayer1, vt)))
    ensures Distinct(Filter(Block(x0, x1, y0, y1), EligibleKeep(current, isPlayer1, vt)))
  {
    BlockSorted(x0, x1, y0, y1);
    FilterSorted(Block(x0, x1, y0, y1), EligibleKeep(current, isPlayer1, vt));
    SortedDistinct(Filter(Block(x0, x1, y0, y1), EligibleKeep(current, isPlayer1, vt)));
  }

  /** What Melee and Reach return: the eligible tiles of the 3x3 neighbourhood clamped to the board, column by column. */
  function NeighbourTiles(current: Pos, isPlayer1: bool, vt: ValidTargets): seq<Pos> {
    Filter(Block(Max(current.x - 1, 0), Min(current.x + 1, 5) + 1, Max(current.y - 1, 0), Min(current.y + 1, 4) + 1),
           EligibleKeep(current, isPlayer1, vt))
  }

  method Melee(currentPosition: Pos, isPlayer1: bool, validTargets: ValidTargets) returns (validTiles: seq<Pos>)
    ensures validTiles == NeighbourTiles(currentPosition, isPlayer1, validTargets)
  {
    var xMin := Max(currentPosition.x - 1, 0);
    var xMax := Min(currentPosition.x + 1, 5);
    var yMin := Max(currentPosition.y - 1, 0);
    var yMax := Min(currentPosition.y + 1, 4);
    validTiles := EligibleInBlock(currentPosition, isPlayer1, validTargets, xMin, xMax, yMin, yMax);
  }

  /** The body of Reach is a copy of Melee's. */
  method Reach(currentPosition: Pos, isPlayer1: bool, validTargets: ValidTargets) returns (validTiles: seq<Pos>)
    ensures validTiles == NeighbourTiles(currentPosition, isPlayer1, validTargets)
  {
    var xMin := Max(currentPosition.x - 1, 0);
    var xMax := Min(currentPosition.x + 1, 5);
    var yMin := Max(currentPosition.y - 1, 0);
    var yMax := Min(currentPosition.y + 1, 4);
    validTiles := EligibleInBlock(currentPosition, isPlayer1, validTargets, xMin, xMax, yMin, yMax);
  }

  /** Melee and Reach offer exactly the eligible board tiles at most one column and one row away from the acting unit. */
  lemma NeighbourTilesMembers(current: Pos, isPlayer1: bool, vt: ValidTargets, p: Pos)
    ensures p in NeighbourTiles(current, isPlayer1, vt) <==>
      OnBoard(p) && Abs(p.x - current.x) <= 1 && Abs(p.y - current.y) <= 1 && Eligible(current, isPlayer1, vt, p)
  {
    var x0, x1, y0, y1 := Max(current.x - 1, 0), Min(current.x + 1, 5) + 1, Max(current.y - 1, 0), Min(current.y + 1, 4) + 1;
    assert NeighbourTiles(current, isPlayer1, vt) == Filter(Block(x0, x1, y0, y1), EligibleKeep(current, isPlayer1, vt));
    EligibleBlockMembers(current, isPlayer1, vt, x0, x1, y0, y1, p);
    assert x0 <= p.x < x1 <==> 0 <= p.x < Width && Abs(p.x - current.x) <= 1;
    assert y0 <= p.y < y1 <==> 0 <= p.y < Height && Abs(p.y - current.y) <= 1;
  }

  /** Melee and Reach list their tiles column by column, each once. */
  lemma NeighbourTilesOrder(current: Pos, isPlayer1: bool, vt: ValidTargets)
    ensures Sorted(NeighbourTiles(current, isPlayer1, vt)) && Distinct(NeighbourTiles(current, isPlayer1, vt))
  {
    EligibleBlockOrder(current, isPlayer1, vt, Max(current.x - 1, 0), Min(current.x + 1, 5) + 1, Max(current.y - 1, 0), Min(current.y + 1, 4) + 1);
  }

  /** What Global returns: the eligible tiles of the whole board in x-then-y order. */
  function GlobalTiles(current: Pos, isPlayer1: bool, vt: ValidTargets): seq<Pos> {
    Filter(AllTiles(), EligibleKeep(current, isPlayer1, vt))
  }

  method Global(currentPosition: Pos, isPlayer1: bool, validTargets: ValidTargets) returns (validTiles: seq<Pos>)
    ensures validTiles == GlobalTiles(currentPosition, isPlayer1, validTargets)
  {
    validTiles := EligibleInBlock(currentPosition, isPlayer1, validTargets, 0, Width - 1, 0, Height - 1);
  }

  /** Global offers every eligible tile of the board. */
  lemma GlobalTilesMembers(current: Pos, isPlayer1: bool, vt: ValidTargets, p: Pos)
    ensures p in GlobalTiles(current, isPlayer1, vt) <==> OnBoard(p) && Eligible(current, isPlayer1, vt, p)
  {
    AllTilesMembers(p);
    FilterMembers(AllTiles(), EligibleKeep(current, isPlayer1, vt), p);
  }

  /** Global lists its tiles in x-then-y order, each once. */
  lemma GlobalTilesOrder(current: Pos, isPlayer1: bool, vt: ValidTargets)
    ensures Sorted(GlobalTiles(current, isPlayer1, vt)) && Distinct(GlobalTiles(current, isPlayer1, vt))
  {
    EligibleBlockOrder(current, isPlayer1, vt, 0, Width, 0, Height);
  }

  /** The opponent's frontline, the last column Ranged scans. */
  function EnemyFrontline(isPlayer1: bool): int {
    if isPlayer1 then 3 else 2
  }

  /** The column one step further into the opponent's half than x. */
  function NeighbourColumn(isPlayer1: bool, x: int): int {
    if isPlayer1 then x + 1 else x - 1
  }

  /** The k-th column Ranged scans: 0, 1, 2, 3 for player 1 and 5, 4, 3, 2 for player 2. */
  function RangedColumn(isPlayer1: bool, k: int): int {
    if isPlayer1 then k else 5 - k
  }

  /** Whether tile p takes the enemy branch of Ranged's test (it is not a self-targeted own tile). */
  predicate EnemyBranch(current: Pos, isPlayer1: bool, vt: ValidTargets, p: Pos) {
    !(p == current && vt.self) && IsPlayer1Column(p.x) != isPlayer1 && vt.enemies
  }

  /** What Ranged adds for the scanned tile p. */
  function RangedCell(current: Pos, isPlayer1: bool, vt: ValidTargets, occupied: set<Pos>, p: Pos): seq<Pos> {
    if p == current && vt.self then [p]
    else if IsPlayer1Column(p.x) != isPlayer1 && vt.enemies then
      var neighbourX := NeighbourColumn(isPlayer1, p.x);
      (if 0 <= neighbourX <= 5 && p !in occupied then [Pos(neighbourX, p.y)] else []) + [p]
    else if IsPlayer1Column(p.x) == isPlayer1 && vt.allies && p != current then [p]
    else []
  }

  /** What Ranged adds for rows 0 .. n - 1 of column x. */
  function RangedColumnScan(current: Pos, isPlayer1: bool, vt: ValidTargets, occupied: set<Pos>, x: int, n: int): seq<Pos>
    decreases n
  {
    if n <= 0 then [] else
      RangedColumnScan(current, isPlayer1, vt, occupied, x, n - 1) + RangedCell(current, isPlayer1, vt, occupied, Pos(x, n - 1))
  }

  /** What Ranged adds for its first k columns. */
  function RangedScan(current: Pos, isPlayer1: bool, vt: ValidTargets, occupied: set<Pos>, k: int): seq<Pos>
    decreases k
  {
    if k <= 0 then [] else
      RangedScan(current, isPlayer1, vt, occupied, k - 1)
      + RangedColumnScan(current, isPlayer1, vt, occupied, RangedColumn(isPlayer1, k - 1), Height)
  }

  /** What Ranged returns: the Reach tiles on the unit's own frontline, else the scan of four columns. */
  function RangedTiles(current: Pos, isPlayer1: bool, vt: ValidTargets, occupied: set<Pos>): seq<Pos> {
    if current.x == Frontline(isPlayer1) then NeighbourTiles(current, isPlayer1, vt)
    else RangedScan(current, isPlayer1, vt, occupied, 4)
  }

  method Ranged(currentPosition: Pos, isPlayer1: bool, validTargets: ValidTargets, occupied: set<Pos>)
    returns (validTiles: seq<Pos>)
    ensures validTiles == RangedTiles(currentPosition, isPlayer1, validTargets, occupied)
  {
    if currentPosition.x == (if isPlayer1 then 2 else 3) {
      validTiles := Reach(currentPosition, isPlayer1, validTargets);
      return;
    }
    validTiles := [];
    var enemyFrontline := if isPlayer1 then 3 else 2;
    var startX := if isPlayer1 then 0 else 5;
    var endX := if isPlayer1 then enemyFrontline + 1 else enemyFrontline - 1;
    var stepX := if isPlayer1 then 1 else -1;
    ghost var k := 0;
    var x := startX;
    while if isPlayer1 then x < endX else x > endX
      invariant 0 <= k <= 4 && x == RangedColumn(isPlayer1, k)
      invariant validTiles == RangedScan(currentPosition, isPlayer1, validTargets, occupied, k)
      decreases 4 - k
    {
      var column := RangedScanColumn(currentPosition, isPlayer1, validTargets, occupied, x);
      validTiles := validTiles + column;
      x := x + stepX;
      k := k + 1;
    }
    assert k == 4;
  }

  /** The inner loop of Ranged over the five rows of column x. */
  method RangedScanColumn(currentPosition: Pos, isPlayer1: bool, validTargets: ValidTargets, occupied: set<Pos>, x: int)
    returns (validTiles: seq<Pos>)
    ensures validTiles == RangedColumnScan(currentPosition, isPlayer1, validTargets, occupied, x, Height)
  {
    validTiles := [];
    var y := 0;
    while y < 5
      invariant 0 <= y <= 5
      invariant validTiles == RangedColumnScan(currentPosition, isPlayer1, validTargets, occupied, x, y)
    {
      var tile := Pos(x, y);
      ghost var before := validTiles;
      if tile == currentPosition && validTargets.self {
        validTiles := validTiles + [tile];
      } else if IsPlayer1Column(x) != isPlayer1 && validTargets.enemies {
        var neighborX := if isPlayer1 then x + 1 else x - 1;
        if neighborX >= 0 && neighborX <= 5 && tile !in occupied {
          validTiles := validTiles + [Pos(neighborX, y)];
        }
        validTiles := validTiles + [tile];
      } else if IsPlayer1Column(x) == isPlayer1 && validTargets.allies && tile != currentPosition {
        validTiles := validTiles + [tile];
      }
      assert validTiles == before + RangedCell(currentPosition, isPlayer1, validTargets, occupied, tile);
      y := y + 1;
    }
  }

  /** A scanned tile of Ranged: a column from the unit's back edge up to the enemy frontline, on the board. */
  predicate RangedScanned(isPlayer1: bool, p: Pos) {
    OnBoard(p) && (if isPlayer1 then p.x <= 3 else p.x >= 2)
  }

  /** A tile Ranged adds only for the empty enemy-frontline tile in front of it. */
  predicate NeighbourEntry(current: Pos, isPlayer1: bool, vt: ValidTargets, occupied: set<Pos>, p: Pos) {
    var front := Pos(EnemyFrontline(isPlayer1), p.y);
    p.x == NeighbourColumn(isPlayer1, EnemyFrontline(isPlayer1)) && 0 <= p.y < Height
    && EnemyBranch(current, isPlayer1, vt, front) && front !in occupied
  }

  predicate RangedMember(current: Pos, isPlayer1: bool, vt: ValidTargets, occupied: set<Pos>, p: Pos) {
    (RangedScanned(isPlayer1, p) && Eligible(current, isPlayer1, vt, p)) || NeighbourEntry(current, isPlayer1, vt, occupied, p)
  }

  lemma {:induction false} RangedColumnScanMembers(current: Pos, isPlayer1: bool, vt: ValidTargets, occupied: set<Pos>, x: int, n: int, p: Pos)
    requires 0 <= n <= Height
    ensures p in RangedColumnScan(current, isPlayer1, vt, occupied, x, n) <==>
      (p.x == x && 0 <= p.y < n && Eligible(current, isPlayer1, vt, p))
      || (p.x == NeighbourColumn(isPlayer1, x) && 0 <= p.x <= 5 && 0 <= p.y < n
          && EnemyBranch(current, isPlayer1, vt, Pos(x, p.y)) && Pos(x, p.y) !in occupied)
  {
    if n > 0 {
      RangedColumnScanMembers(current, isPlayer1, vt, occupied, x, n - 1, p);
    }
  }

  /** The k-th column scanned adds its eligible tiles, and the enemy frontline also the neighbours of its empty enemy tiles. */
  lemma RangedColumnMembers(current: Pos, isPlayer1: bool, vt: ValidTargets, occupied: set<Pos>, k: int, p: Pos)
    requires 0 <= k < 4
    ensures p in RangedColumnScan(current, isPlayer1, vt, occupied, RangedColumn(isPlayer1, k), Height) <==>
      (OnBoard(p) && p.x == RangedColumn(isPlayer1, k) && Eligible(current, isPlayer1, vt, p))
      || (k == 3 && NeighbourEntry(current, isPlayer1, vt, occupied, p))
  {
    var x := RangedColumn(isPlayer1, k);
    RangedColumnScanMembers(current, isPlayer1, vt, occupied, x, Height, p);
    if k < 3 {
      // Only the enemy frontline, the last column scanned, lies in the opponent's half.
      assert !EnemyBranch(current, isPlayer1, vt, Pos(x, p.y));
    }
  }

  lemma {:induction false} RangedScanMembers(current: Pos, isPlayer1: bool, vt: ValidTargets, occupied: set<Pos>, k: int, p: Pos)
    requires 0 <= k <= 4
    ensures p in RangedScan(current, isPlayer1, vt, occupied, k) <==>
      (OnBoard(p) && (if isPlayer1 then p.x < k else p.x > 5 - k) && Eligible(current, isPlayer1, vt, p))
      || (k == 4 && NeighbourEntry(current, isPlayer1, vt, occupied, p))
  {
    if k > 0 {
      RangedScanMembers(current, isPlayer1, vt, occupied, k - 1, p);
      RangedColumnMembers(current, isPlayer1, vt, occupied, k - 1, p);
    }
  }

  /**
   * Away from its frontline, Ranged offers exactly the eligible tiles from the unit's back edge up
   * to the enemy frontline, plus, for each empty enemy-frontline tile taken by the enemy test,
   * the tile one column behind it.
   */
  lemma RangedTilesMembers(current: Pos, isPlayer1: bool, vt: ValidTargets, occupied: set<Pos>, p: Pos)
    requires current.x != Frontline(isPlayer1)
    ensures p in RangedTiles(current, isPlayer1, vt, occupied) <==> RangedMember(current, isPlayer1, vt, occupied, p)
  {
    RangedScanMembers(current, isPlayer1, vt, occupied, 4, p);
  }

  /** Every neighbour tile in s is immediately followed by the enemy-frontline tile it stands behind. */
  predicate NeighboursFollowed(isPlayer1: bool, s: seq<Pos>) {
    forall i :: 0 <= i < |s| && s[i].x == NeighbourColumn(isPlayer1, EnemyFrontline(isPlayer1)) ==>
      i + 1 < |s| && s[i + 1] == Pos(EnemyFrontline(isPlayer1), s[i].y)
  }

  /** Every empty enemy-frontline tile in s taken by the enemy test is immediately preceded by its neighbour. */
  predicate FrontPreceded(current: Pos, isPlayer1: bool, vt: ValidTargets, occupied: set<Pos>, s: seq<Pos>) {
    forall i :: 0 <= i < |s| && s[i].x == EnemyFrontline(isPlayer1) && EnemyBranch(current, isPlayer1, vt, s[i]) && s[i] !in occupied ==>
      0 < i && s[i - 1] == Pos(NeighbourColumn(isPlayer1, EnemyFrontline(isPlayer1)), s[i].y)
  }

  lemma AppendPairing(current: Pos, isPlayer1: bool, vt: ValidTargets, occupied: set<Pos>, a: seq<Pos>, b: seq<Pos>)
    requires NeighboursFollowed(isPlayer1, a) && NeighboursFollowed(isPlayer1, b)
    requires FrontPreceded(current, isPlayer1, vt, occupied, a) && FrontPreceded(current, isPlayer1, vt, occupied, b)
    ensures NeighboursFollowed(isPlayer1, a + b) && FrontPreceded(current, isPlayer1, vt, occupied, a + b)
  {
    var s := a + b;
    forall i | 0 <= i < |s| && s[i].x == NeighbourColumn(isPlayer1, EnemyFrontline(isPlayer1))
      ensures i + 1 < |s| && s[i + 1] == Pos(EnemyFrontline(isPlayer1), s[i].y)
    {
      if i < |a| {
        assert s[i] == a[i] && s[i + 1] == a[i + 1];
      } else {
        assert s[i] == b[i - |a|] && s[i + 1] == b[i + 1 - |a|];
      }
    }
    forall i | 0 <= i < |s| && s[i].x == EnemyFrontline(isPlayer1) && EnemyBranch(current, isPlayer1, vt, s[i]) && s[i] !in occupied
      ensures 0 < i && s[i - 1] == Pos(NeighbourColumn(isPlayer1, EnemyFrontline(isPlayer1)), s[i].y)
    {
      if i < |a| {
        assert s[i] == a[i] && s[i - 1] == a[i - 1];
      } else {
        assert s[i] == b[i - |a|];
        assert s[i - 1] == b[i - 1 - |a|];
      }
    }
  }

  lemma CellPairing(current: Pos, isPlayer1: bool, vt: ValidTargets, occupied: set<Pos>, p: Pos)
    requires RangedScanned(isPlayer1, p)
    ensures NeighboursFollowed(isPlayer1, RangedCell(current, isPlayer1, vt, occupied, p))
    ensures FrontPreceded(current, isPlayer1, vt, occupied, RangedCell(current, isPlayer1, vt, occupied, p))
  {
  }

  lemma {:induction false} RangedColumnScanPairing(current: Pos, isPlayer1: bool, vt: ValidTargets, occupied: set<Pos>, k: int, n: int)
    requires 0 <= k < 4 && 0 <= n <= Height
    ensures NeighboursFollowed(isPlayer1, RangedColumnScan(current, isPlayer1, vt, occupied, RangedColumn(isPlayer1, k), n))
    ensures FrontPreceded(current, isPlayer1, vt, occupied, RangedColumnScan(current, isPlayer1, vt, occupied, RangedColumn(isPlayer1, k), n))
  {
    if n > 0 {
      var x := RangedColumn(isPlayer1, k);
      RangedColumnScanPairing(current, isPlayer1, vt, occupied, k, n - 1);
      CellPairing(current, isPlayer1, vt, occupied, Pos(x, n - 1));
      AppendPairing(current, isPlayer1, vt, occupied,
        RangedColumnScan(current, isPlayer1, vt, occupied, x, n - 1), RangedCell(current, isPlayer1, vt, occupied, Pos(x, n - 1)));
    }
  }

  lemma {:induction false} RangedScanPairing(current: Pos, isPlayer1: bool, vt: ValidTargets, occupied: set<Pos>, k: int)
    requires 0 <= k <= 4
    ensures NeighboursFollowed(isPlayer1, RangedScan(current, isPlayer1, vt, occupied, k))
    ensures FrontPreceded(current, isPlayer1, vt, occupied, RangedScan(current, isPlayer1, vt, occupied, k))
  {
    if k > 0 {
      RangedScanPairing(current, isPlayer1, vt, occupied, k - 1);
      RangedColumnScanPairing(current, isPlayer1, vt, occupied, k - 1, Height);
      AppendPairing(current, isPlayer1, vt, occupied, RangedScan(current, isPlayer1, vt, occupied, k - 1),
        RangedColumnScan(current, isPlayer1, vt, occupied, RangedColumn(isPlayer1, k - 1), Height));
    }
  }

  /**
   * Away from its frontline, Ranged lists each empty enemy-frontline tile taken by the enemy test
   * right after the tile behind it, and lists a tile behind the frontline only in that position.
   */
  lemma RangedNeighbourOrder(current: Pos, isPlayer1: bool, vt: ValidTargets, occupied: set<Pos>)
    requires current.x != Frontline(isPlayer1)
    ensures NeighboursFollowed(isPlayer1, RangedTiles(current, isPlayer1, vt, occupied))
    ensures FrontPreceded(current, isPlayer1, vt, occupied, RangedTiles(current, isPlayer1, vt, occupied))
  {
    RangedScanPairing(current, isPlayer1, vt, occupied, 4);
  }
}
