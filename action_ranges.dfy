/**
 * The tiles an action can reach (ActionRanges). Melee, Reach and Ranged scan a window of
 * columns around the acting unit over the rows next to it, same-row tiles first; Global scans
 * the acting player's own half over the three nearest rows, from the frontline outward.
 * A tile is named by its grid position.
 */
module ActionRanges {
  import opened Geometry
  import opened CardData

  /**
   * IsValidTile, and the tileValid test of GetValidTiles: the acting unit's own tile when it may
   * target itself, any enemy tile when it targets enemies, any other own tile when it targets allies.
   */
  predicate Eligible(current: Pos, isPlayer1: bool, vt: ValidTargets, p: Pos) {
    (p == current && vt.self)
    || (IsPlayer1Column(p.x) != isPlayer1 && vt.enemies)
    || (IsPlayer1Column(p.x) == isPlayer1 && vt.allies && p != current)
  }

  predicate IsValidRangedTile(current: Pos, p: Pos) {
    Abs(current.x - p.x) <= 2 && Abs(current.y - p.y) <= 1
  }

  /** The tests a scanned tile of GetValidTiles must pass to be added. */
  predicate Kept(current: Pos, isPlayer1: bool, vt: ValidTargets, range: ActionRange, p: Pos) {
    Eligible(current, isPlayer1, vt, p) && (range != ActionRange.Ranged || IsValidRangedTile(current, p))
  }

  /** The first and last column GetValidTiles scans. */
  function WindowMin(current: Pos, isPlayer1: bool, range: ActionRange): int {
    if range == ActionRange.Global then 0
    else if isPlayer1 then Max(current.x - 1, 0)
    else Max(current.x - 2, 0)
  }

  function WindowMax(current: Pos, isPlayer1: bool, range: ActionRange): int {
    if range == ActionRange.Global then 5
    else if isPlayer1 then Min(current.x + 2, 5)
    else Min(current.x + 1, 5)
  }

  /** The rows y - 1, y, y + 1 of the acting unit that lie on the board, as the range [RowsLo, RowsHi). */
  function RowsLo(current: Pos): int {
    Max(current.y - 1, 0)
  }

  function RowsHi(current: Pos): int {
    Min(current.y + 2, Height)
  }

  function Window(current: Pos, isPlayer1: bool, range: ActionRange): seq<Pos> {
    Block(WindowMin(current, isPlayer1, range), WindowMax(current, isPlayer1, range) + 1, RowsLo(current), RowsHi(current))
  }

  function SameRowKeep(current: Pos, isPlayer1: bool, vt: ValidTargets, range: ActionRange): Pos -> bool {
    (p: Pos) => p.y == current.y && Kept(current, isPlayer1, vt, range, p)
  }

  function OtherRowKeep(current: Pos, isPlayer1: bool, vt: ValidTargets, range: ActionRange): Pos -> bool {
    (p: Pos) => p.y != current.y && Kept(current, isPlayer1, vt, range, p)
  }

  /**
   * What GetValidTiles returns: the kept tiles of the window on the acting unit's row, then
   * the kept tiles of the other rows, each group in column-then-row order.
   */
  function RangeTiles(current: Pos, isPlayer1: bool, vt: ValidTargets, range: ActionRange): seq<Pos> {
    Filter(Window(current, isPlayer1, range), SameRowKeep(current, isPlayer1, vt, range))
    + Filter(Window(current, isPlayer1, range), OtherRowKeep(current, isPlayer1, vt, range))
  }

  /** How many tiles of RangeTiles lie on the acting unit's row. */
  function SameRowCount(current: Pos, isPlayer1: bool, vt: ValidTargets, range: ActionRange): nat {
    |Filter(Window(current, isPlayer1, range), SameRowKeep(current, isPlayer1, vt, range))|
  }

  method GetValidTiles(currentPosition: Pos, isPlayer1: bool, validTargets: ValidTargets, actionRange: ActionRange)
    returns (validTiles: seq<Pos>)
    ensures validTiles == RangeTiles(currentPosition, isPlayer1, validTargets, actionRange)
  {
    ghost var lo, hi := RowsLo(currentPosition), RowsHi(currentPosition);
    ghost var keepSame := SameRowKeep(currentPosition, isPlayer1, validTargets, actionRange);
    ghost var keepOther := OtherRowKeep(currentPosition, isPlayer1, validTargets, actionRange);
    validTiles := [];
    var sameRowTiles: seq<Pos> := [];
    var xMin := WindowMin(currentPosition, isPlayer1, actionRange);
    var xMax := WindowMax(currentPosition, isPlayer1, actionRange);
    var x := xMin;
    while x <= xMax
      invariant xMin <= x && (x <= xMax + 1 || x == xMin)
      invariant sameRowTiles == BlockScan(xMin, x, lo, hi, keepSame)
      invariant validTiles == BlockScan(xMin, x, lo, hi, keepOther)
    {
      var same, other := ScanColumnCells(currentPosition, isPlayer1, validTargets, actionRange, x);
      sameRowTiles := sameRowTiles + same;
      validTiles := validTiles + other;
      x := x + 1;
    }
    assert BlockScan(xMin, x, lo, hi, keepSame) == BlockScan(xMin, xMax + 1, lo, hi, keepSame);
    assert BlockScan(xMin, x, lo, hi, keepOther) == BlockScan(xMin, xMax + 1, lo, hi, keepOther);
    BlockScanFilter(xMin, xMax + 1, lo, hi, keepSame);
    BlockScanFilter(xMin, xMax + 1, lo, hi, keepOther);
    validTiles := sameRowTiles + validTiles;
  }

  /**
   * The inner loop of GetValidTiles over the rows y - 1, y, y + 1 of column x: the tiles it adds
   * to the same-row group and to the other-rows group.
   */
  method ScanColumnCells(currentPosition: Pos, isPlayer1: bool, validTargets: ValidTargets, actionRange: ActionRange, x: int)
    returns (sameRowTiles: seq<Pos>, validTiles: seq<Pos>)
    ensures sameRowTiles == ColumnScan(x, RowsLo(currentPosition), RowsHi(currentPosition), SameRowKeep(currentPosition, isPlayer1, validTargets, actionRange))
    ensures validTiles == ColumnScan(x, RowsLo(currentPosition), RowsHi(currentPosition), OtherRowKeep(currentPosition, isPlayer1, validTargets, actionRange))
  {
    ghost var lo, hi := RowsLo(currentPosition), RowsHi(currentPosition);
    ghost var keepSame := SameRowKeep(currentPosition, isPlayer1, validTargets, actionRange);
    ghost var keepOther := OtherRowKeep(currentPosition, isPlayer1, validTargets, actionRange);
    sameRowTiles, validTiles := [], [];
    var yOffset := -1;
    while yOffset <= 1
      invariant -1 <= yOffset <= 2
      invariant sameRowTiles == ColumnScan(x, lo, Min(currentPosition.y + yOffset, hi), keepSame)
      invariant validTiles == ColumnScan(x, lo, Min(currentPosition.y + yOffset, hi), keepOther)
    {
      ghost var sameBefore, otherBefore := sameRowTiles, validTiles;
      var y := currentPosition.y + yOffset;
      if y >= 0 && y <= 4 {
        // The Melee, Reach and Global branches and the Ranged branch of the range test, joined.
        var tileValid := Eligible(currentPosition, isPlayer1, validTargets, Pos(x, y));
        if tileValid && (actionRange != ActionRange.Ranged || IsValidRangedTile(currentPosition, Pos(x, y))) {
          if yOffset == 0 {
            sameRowTiles := sameRowTiles + [Pos(x, y)];
          } else {
            validTiles := validTiles + [Pos(x, y)];
          }
        }
      }
      ScanCellStep(currentPosition, isPlayer1, validTargets, actionRange, x, yOffset, sameBefore, otherBefore, sameRowTiles, validTiles);
      yOffset := yOffset + 1;
    }
  }

  /** One row of ScanColumnCells: the tile (x, y + yOffset), when on the board and kept, joins its group. */
  lemma ScanCellStep(current: Pos, isPlayer1: bool, vt: ValidTargets, range: ActionRange, x: int, yOffset: int,
                     sameBefore: seq<Pos>, otherBefore: seq<Pos>, same: seq<Pos>, other: seq<Pos>)
    requires -1 <= yOffset <= 1
    requires sameBefore == ColumnScan(x, RowsLo(current), Min(current.y + yOffset, RowsHi(current)), SameRowKeep(current, isPlayer1, vt, range))
    requires otherBefore == ColumnScan(x, RowsLo(current), Min(current.y + yOffset, RowsHi(current)), OtherRowKeep(current, isPlayer1, vt, range))
    requires var p := Pos(x, current.y + yOffset);
      var add := 0 <= p.y <= 4 && Kept(current, isPlayer1, vt, range, p);
      same == sameBefore + (if add && yOffset == 0 then [p] else [])
      && other == otherBefore + (if add && yOffset != 0 then [p] else [])
    ensures same == ColumnScan(x, RowsLo(current), Min(current.y + yOffset + 1, RowsHi(current)), SameRowKeep(current, isPlayer1, vt, range))
    ensures other == ColumnScan(x, RowsLo(current), Min(current.y + yOffset + 1, RowsHi(current)), OtherRowKeep(current, isPlayer1, vt, range))
  {
    var y := current.y + yOffset;
    var lo, hi := RowsLo(current), RowsHi(current);
    if 0 <= y <= 4 {
      assert Min(y, hi) == y && Min(y + 1, hi) == y + 1 && lo <= y;
    } else {
      assert Min(y + 1, hi) <= lo || Min(y + 1, hi) == Min(y, hi);
    }
  }

  method Melee(currentPosition: Pos, isPlayer1: bool, validTargets: ValidTargets) returns (r: seq<Pos>)
    ensures r == RangeTiles(currentPosition, isPlayer1, validTargets, ActionRange.Melee)
  {
    r := GetValidTiles(currentPosition, isPlayer1, validTargets, ActionRange.Melee);
  }

  method Reach(currentPosition: Pos, isPlayer1: bool, validTargets: ValidTargets) returns (r: seq<Pos>)
    ensures r == RangeTiles(currentPosition, isPlayer1, validTargets, ActionRange.Reach)
  {
    r := GetValidTiles(currentPosition, isPlayer1, validTargets, ActionRange.Reach);
  }

  method Ranged(currentPosition: Pos, isPlayer1: bool, validTargets: ValidTargets) returns (r: seq<Pos>)
    ensures r == RangeTiles(currentPosition, isPlayer1, validTargets, ActionRange.Ranged)
  {
    r := GetValidTiles(currentPosition, isPlayer1, validTargets, ActionRange.Ranged);
  }

  /** A window tile is at most one row and two columns from the acting unit. */
  lemma WindowMembers(current: Pos, isPlayer1: bool, range: ActionRange, p: Pos)
    ensures p in Window(current, isPlayer1, range) <==>
      OnBoard(p) && current.y - 1 <= p.y <= current.y + 1
      && (range == ActionRange.Global || (if isPlayer1 then current.x - 1 <= p.x <= current.x + 2 else current.x - 2 <= p.x <= current.x + 1))
  {
    BlockMembers(WindowMin(current, isPlayer1, range), WindowMax(current, isPlayer1, range) + 1, RowsLo(current), RowsHi(current), p);
  }

  /** Inside the window of a non-global range the ranged distance test always holds. */
  lemma RangedTestRedundant(current: Pos, isPlayer1: bool, vt: ValidTargets, range: ActionRange, p: Pos)
    requires range != ActionRange.Global && p in Window(current, isPlayer1, range)
    ensures Kept(current, isPlayer1, vt, range, p) == Eligible(current, isPlayer1, vt, p)
  {
    WindowMembers(current, isPlayer1, range, p);
  }

  /**
   * A tile is offered by GetValidTiles exactly when it is on the board, at most one row from
   * the acting unit, inside the column window (one column back and two forward for player 1,
   * two back and one forward for player 2; the whole width for Global) and eligible.
   */
  lemma RangeTilesMembers(current: Pos, isPlayer1: bool, vt: ValidTargets, range: ActionRange, p: Pos)
    ensures p in RangeTiles(current, isPlayer1, vt, range) <==>
      OnBoard(p) && current.y - 1 <= p.y <= current.y + 1
      && (range == ActionRange.Global || (if isPlayer1 then current.x - 1 <= p.x <= current.x + 2 else current.x - 2 <= p.x <= current.x + 1))
      && Eligible(current, isPlayer1, vt, p)
  {
    var w := Window(current, isPlayer1, range);
    FilterMembers(w, SameRowKeep(current, isPlayer1, vt, range), p);
    FilterMembers(w, OtherRowKeep(current, isPlayer1, vt, range), p);
    WindowMembers(current, isPlayer1, range, p);
    if range != ActionRange.Global && p in w {
      RangedTestRedundant(current, isPlayer1, vt, range, p);
    }
  }

  /** Melee, Reach and Ranged offer the very same tiles in the same order: their ranges differ only in name. */
  lemma RangedEqualsMeleeAndReach(current: Pos, isPlayer1: bool, vt: ValidTargets)
    ensures RangeTiles(current, isPlayer1, vt, ActionRange.Ranged) == RangeTiles(current, isPlayer1, vt, ActionRange.Melee)
    ensures RangeTiles(current, isPlayer1, vt, ActionRange.Reach) == RangeTiles(current, isPlayer1, vt, ActionRange.Melee)
  {
    var w := Window(current, isPlayer1, ActionRange.Melee);
    assert Window(current, isPlayer1, ActionRange.Ranged) == w && Window(current, isPlayer1, ActionRange.Reach) == w;
    forall i | 0 <= i < |w|
      ensures Kept(current, isPlayer1, vt, ActionRange.Ranged, w[i]) == Kept(current, isPlayer1, vt, ActionRange.Melee, w[i])
    {
      RangedTestRedundant(current, isPlayer1, vt, ActionRange.Ranged, w[i]);
    }
    FilterCongruent(w, SameRowKeep(current, isPlayer1, vt, ActionRange.Ranged), SameRowKeep(current, isPlayer1, vt, ActionRange.Melee));
    FilterCongruent(w, OtherRowKeep(current, isPlayer1, vt, ActionRange.Ranged), OtherRowKeep(current, isPlayer1, vt, ActionRange.Melee));
    FilterCongruent(w, SameRowKeep(current, isPlayer1, vt, ActionRange.Reach), SameRowKeep(current, isPlayer1, vt, ActionRange.Melee));
    FilterCongruent(w, OtherRowKeep(current, isPlayer1, vt, ActionRange.Reach), OtherRowKeep(current, isPlayer1, vt, ActionRange.Melee));
  }

  lemma WindowFilterSorted(current: Pos, isPlayer1: bool, range: ActionRange, keep: Pos -> bool)
    ensures Sorted(Filter(Window(current, isPlayer1, range), keep))
  {
    BlockSorted(WindowMin(current, isPlayer1, range), WindowMax(current, isPlayer1, range) + 1, RowsLo(current), RowsHi(current));
    FilterSorted(Window(current, isPlayer1, range), keep);
  }

  /** Every tile of s lies on row y, or every tile lies off it. */
  predicate AllOnRow(s: seq<Pos>, y: int, on: bool) {
    forall i :: 0 <= i < |s| ==> (s[i].y == y) == on
  }

  /** The same-row group lies on the acting unit's row, the other group off it. */
  lemma GroupRows(current: Pos, isPlayer1: bool, vt: ValidTargets, range: ActionRange)
    ensures AllOnRow(Filter(Window(current, isPlayer1, range), SameRowKeep(current, isPlayer1, vt, range)), current.y, true)
    ensures AllOnRow(Filter(Window(current, isPlayer1, range), OtherRowKeep(current, isPlayer1, vt, range)), current.y, false)
  {
    var w := Window(current, isPlayer1, range);
    var same := Filter(w, SameRowKeep(current, isPlayer1, vt, range));
    var other := Filter(w, OtherRowKeep(current, isPlayer1, vt, range));
    forall i | 0 <= i < |same| ensures same[i].y == current.y {
      FilterMembers(w, SameRowKeep(current, isPlayer1, vt, range), same[i]);
    }
    forall i | 0 <= i < |other| ensures other[i].y != current.y {
      FilterMembers(w, OtherRowKeep(current, isPlayer1, vt, range), other[i]);
    }
  }

  /**
   * The tiles on the acting unit's row come first, then those of the other rows, and each
   * group is in column-then-row order.
   */
  lemma RangeTilesOrder(current: Pos, isPlayer1: bool, vt: ValidTargets, range: ActionRange)
    ensures var r := RangeTiles(current, isPlayer1, vt, range);
      var k := SameRowCount(current, isPlayer1, vt, range);
      k <= |r| && AllOnRow(r[..k], current.y, true) && AllOnRow(r[k..], current.y, false)
      && Sorted(r[..k]) && Sorted(r[k..])
  {
    var w := Window(current, isPlayer1, range);
    var same := Filter(w, SameRowKeep(current, isPlayer1, vt, range));
    var other := Filter(w, OtherRowKeep(current, isPlayer1, vt, range));
    WindowFilterSorted(current, isPlayer1, range, SameRowKeep(current, isPlayer1, vt, range));
    WindowFilterSorted(current, isPlayer1, range, OtherRowKeep(current, isPlayer1, vt, range));
    GroupRows(current, isPlayer1, vt, range);
    var r := same + other;
    assert r[..|same|] == same && r[|same|..] == other;
  }

  /** GetValidTiles never offers a tile twice. */
  lemma RangeTilesDistinct(current: Pos, isPlayer1: bool, vt: ValidTargets, range: ActionRange)
    ensures Distinct(RangeTiles(current, isPlayer1, vt, range))
  {
    RangeTilesOrder(current, isPlayer1, vt, range);
    var r := RangeTiles(current, isPlayer1, vt, range);
    var k := SameRowCount(current, isPlayer1, vt, range);
    SortedDistinct(r[..k]);
    SortedDistinct(r[k..]);
    forall i, j | 0 <= i < j < |r| ensures r[i] != r[j] {
      if j < k {
        assert r[i] == r[..k][i] && r[j] == r[..k][j];
      } else if k <= i {
        assert r[i] == r[k..][i - k] && r[j] == r[k..][j - k];
      } else {
        assert r[i] == r[..k][i] && r[j] == r[k..][j - k];
      }
    }
  }

  /** The column of the j-th tile of a half row, counted from the frontline outward. */
  function HalfColumn(isPlayer1: bool, j: int): int {
    if isPlayer1 then 2 - j else 3 + j
  }

  /** The rows GetTilesInRange visits, in priority order: the acting unit's row, the one above, the one below. */
  function RowPriority(current: Pos, i: int): int {
    if i == 0 then current.y else if i == 1 then current.y + 1 else current.y - 1
  }

  /** The position of row y in the priority order; 3 for a row GetTilesInRange never visits. */
  function RowRank(current: Pos, y: int): int {
    if y == current.y then 0 else if y == current.y + 1 then 1 else if y == current.y - 1 then 2 else 3
  }

  predicate InRangeKept(current: Pos, isPlayer1: bool, vt: ValidTargets, range: int, p: Pos) {
    Abs(p.x - current.x) <= range && Eligible(current, isPlayer1, vt, p)
  }

  /** The kept tiles among the first j tiles of the acting player's half of row y, from the frontline outward. */
  function HalfRowScan(current: Pos, isPlayer1: bool, vt: ValidTargets, range: int, y: int, j: int): seq<Pos>
    decreases j
  {
    if j <= 0 then []
    else
      var p := Pos(HalfColumn(isPlayer1, j - 1), y);
      HalfRowScan(current, isPlayer1, vt, range, y, j - 1) + (if InRangeKept(current, isPlayer1, vt, range, p) then [p] else [])
  }

  /** The kept tiles of the first i rows in priority order, skipping rows off the board. */
  function RowsScan(current: Pos, isPlayer1: bool, vt: ValidTargets, range: int, i: int): seq<Pos>
    decreases i
  {
    if i <= 0 then []
    else
      var y := RowPriority(current, i - 1);
      RowsScan(current, isPlayer1, vt, range, i - 1) + (if 0 <= y < Height then HalfRowScan(current, isPlayer1, vt, range, y, 3) else [])
  }

  /** What GetTilesInRange returns. */
  function TilesInRange(current: Pos, isPlayer1: bool, vt: ValidTargets, range: int): seq<Pos> {
    RowsScan(current, isPlayer1, vt, range, 3)
  }

  method GetTilesInRange(currentPosition: Pos, isPlayer1: bool, validTargets: ValidTargets, range: int)
    returns (validTiles: seq<Pos>)
    ensures validTiles == TilesInRange(currentPosition, isPlayer1, validTargets, range)
  {
    validTiles := [];
    var rowPriority := [currentPosition.y, currentPosition.y + 1, currentPosition.y - 1];
    var i := 0;
    while i < 3
      invariant 0 <= i <= 3
      invariant validTiles == RowsScan(currentPosition, isPlayer1, validTargets, range, i)
    {
      var y := rowPriority[i];
      assert y == RowPriority(currentPosition, i);
      if y >= 0 && y < 5 {
        var rowTiles := ScanHalfRow(currentPosition, isPlayer1, validTargets, range, y);
        validTiles := validTiles + rowTiles;
      } else {
        assert validTiles + [] == validTiles;
      }
      i := i + 1;
    }
  }

  /** The inner loop of GetTilesInRange: row y of the acting player's half, from the frontline outward. */
  method ScanHalfRow(currentPosition: Pos, isPlayer1: bool, validTargets: ValidTargets, range: int, y: int)
    returns (validTiles: seq<Pos>)
    ensures validTiles == HalfRowScan(currentPosition, isPlayer1, validTargets, range, y, 3)
  {
    validTiles := [];
    var startX := if isPlayer1 then 2 else 3;
    var endX := if isPlayer1 then -1 else 6;
    var stepX := if isPlayer1 then -1 else 1;
    ghost var j := 0;
    var x := startX;
    while x != endX
      invariant 0 <= j <= 3 && x == HalfColumn(isPlayer1, j)
      invariant validTiles == HalfRowScan(currentPosition, isPlayer1, validTargets, range, y, j)
      decreases 3 - j
    {
      if Abs(x - currentPosition.x) <= range {
        if Eligible(currentPosition, isPlayer1, validTargets, Pos(x, y)) {
          validTiles := validTiles + [Pos(x, y)];
        }
      }
      x := x + stepX;
      j := j + 1;
    }
    assert j == 3;
  }

  /** Global: every distance passes, since the bound is the largest 32-bit integer. */
  method Global(currentPosition: Pos, isPlayer1: bool, validTargets: ValidTargets) returns (r: seq<Pos>)
    ensures r == TilesInRange(currentPosition, isPlayer1, validTargets, Int32Max)
  {
    r := GetTilesInRange(currentPosition, isPlayer1, validTargets, Int32Max);
  }

  const Int32Max: int := 0x7FFF_FFFF

  lemma {:induction false} HalfRowScanMembers(current: Pos, isPlayer1: bool, vt: ValidTargets, range: int, y: int, j: int, p: Pos)
    requires 0 <= j <= 3
    ensures p in HalfRowScan(current, isPlayer1, vt, range, y, j) <==>
      p.y == y && InRangeKept(current, isPlayer1, vt, range, p)
      && (if isPlayer1 then 2 - j < p.x <= 2 else 3 <= p.x < 3 + j)
  {
    if j > 0 {
      HalfRowScanMembers(current, isPlayer1, vt, range, y, j - 1, p);
    }
  }

  lemma {:induction false} RowsScanMembers(current: Pos, isPlayer1: bool, vt: ValidTargets, range: int, n: int, p: Pos)
    requires 0 <= n <= 3
    ensures p in RowsScan(current, isPlayer1, vt, range, n) <==>
      OnBoard(p) && IsPlayer1Column(p.x) == isPlayer1 && RowRank(current, p.y) < n
      && InRangeKept(current, isPlayer1, vt, range, p)
  {
    if n > 0 {
      RowsScanMembers(current, isPlayer1, vt, range, n - 1, p);
      var y := RowPriority(current, n - 1);
      HalfRowScanMembers(current, isPlayer1, vt, range, y, 3, p);
    }
  }

  /**
   * GetTilesInRange offers exactly the eligible tiles within the distance bound on the acting
   * player's own half, in the acting unit's row and the rows just above and below it.
   */
  lemma TilesInRangeMembers(current: Pos, isPlayer1: bool, vt: ValidTargets, range: int, p: Pos)
    ensures p in TilesInRange(current, isPlayer1, vt, range) <==>
      OnBoard(p) && IsPlayer1Column(p.x) == isPlayer1 && current.y - 1 <= p.y <= current.y + 1
      && Abs(p.x - current.x) <= range && Eligible(current, isPlayer1, vt, p)
  {
    RowsScanMembers(current, isPlayer1, vt, range, 3, p);
  }

  /**
   * For a unit on the board, Global offers exactly the eligible tiles of its own half in its row
   * and the two next to it: never an enemy tile, and never a row further away.
   */
  lemma GlobalMembers(current: Pos, isPlayer1: bool, vt: ValidTargets, p: Pos)
    requires OnBoard(current)
    ensures p in TilesInRange(current, isPlayer1, vt, Int32Max) <==>
      OnBoard(p) && IsPlayer1Column(p.x) == isPlayer1 && current.y - 1 <= p.y <= current.y + 1
      && ((p == current && vt.self) || (vt.allies && p != current))
  {
    TilesInRangeMembers(current, isPlayer1, vt, Int32Max, p);
  }

  /** The visiting rank of a tile: its row's priority first, then its distance from the frontline. */
  function Rank(current: Pos, isPlayer1: bool, p: Pos): int {
    3 * RowRank(current, p.y) + (if isPlayer1 then 2 - p.x else p.x - 3)
  }

  predicate Ranked(current: Pos, isPlayer1: bool, s: seq<Pos>) {
    forall i, j :: 0 <= i < j < |s| ==> Rank(current, isPlayer1, s[i]) < Rank(current, isPlayer1, s[j])
  }

  /** Appending a ranked run whose every tile ranks above all earlier ones keeps the scan ranked. */
  lemma AppendRanked(current: Pos, isPlayer1: bool, a: seq<Pos>, b: seq<Pos>)
    requires Ranked(current, isPlayer1, a) && Ranked(current, isPlayer1, b)
    requires forall p, q :: p in a && q in b ==> Rank(current, isPlayer1, p) < Rank(current, isPlayer1, q)
    ensures Ranked(current, isPlayer1, a + b)
  {
    forall i, j | 0 <= i < j < |a + b|
      ensures Rank(current, isPlayer1, (a + b)[i]) < Rank(current, isPlayer1, (a + b)[j])
    {
      if j < |a| {
        assert (a + b)[i] == a[i] && (a + b)[j] == a[j];
      } else if i >= |a| {
        assert (a + b)[i] == b[i - |a|] && (a + b)[j] == b[j - |a|];
      } else {
        assert (a + b)[i] in a && (a + b)[j] in b;
      }
    }
  }

  lemma {:induction false} HalfRowScanRanked(current: Pos, isPlayer1: bool, vt: ValidTargets, range: int, y: int, j: int)
    requires 0 <= j <= 3
    ensures Ranked(current, isPlayer1, HalfRowScan(current, isPlayer1, vt, range, y, j))
  {
    if j > 0 {
      HalfRowScanRanked(current, isPlayer1, vt, range, y, j - 1);
      var a := HalfRowScan(current, isPlayer1, vt, range, y, j - 1);
      forall q | q in a ensures Rank(current, isPlayer1, q) < Rank(current, isPlayer1, Pos(HalfColumn(isPlayer1, j - 1), y)) {
        HalfRowScanMembers(current, isPlayer1, vt, range, y, j - 1, q);
      }
      var p := Pos(HalfColumn(isPlayer1, j - 1), y);
      AppendRanked(current, isPlayer1, a, if InRangeKept(current, isPlayer1, vt, range, p) then [p] else []);
    }
  }

  lemma {:induction false} RowsScanRanked(current: Pos, isPlayer1: bool, vt: ValidTargets, range: int, n: int)
    requires 0 <= n <= 3
    ensures Ranked(current, isPlayer1, RowsScan(current, isPlayer1, vt, range, n))
  {
    if n > 0 {
      RowsScanRanked(current, isPlayer1, vt, range, n - 1);
      var a := RowsScan(current, isPlayer1, vt, range, n - 1);
      var y := RowPriority(current, n - 1);
      var b := if 0 <= y < Height then HalfRowScan(current, isPlayer1, vt, range, y, 3) else [];
      HalfRowScanRanked(current, isPlayer1, vt, range, y, 3);
      forall p, q | p in a && q in b ensures Rank(current, isPlayer1, p) < Rank(current, isPlayer1, q) {
        RowsScanPrecedes(current, isPlayer1, vt, range, n, p, q);
      }
      AppendRanked(current, isPlayer1, a, b);
    }
  }

  /** A tile of an earlier row in the priority order ranks below every tile of row n - 1. */
  lemma RowsScanPrecedes(current: Pos, isPlayer1: bool, vt: ValidTargets, range: int, n: int, p: Pos, q: Pos)
    requires 1 <= n <= 3
    requires p in RowsScan(current, isPlayer1, vt, range, n - 1)
    requires q in HalfRowScan(current, isPlayer1, vt, range, RowPriority(current, n - 1), 3)
    ensures Rank(current, isPlayer1, p) < Rank(current, isPlayer1, q)
  {
    RowsScanMembers(current, isPlayer1, vt, range, n - 1, p);
    HalfRowScanMembers(current, isPlayer1, vt, range, RowPriority(current, n - 1), 3, q);
    assert RowRank(current, q.y) == n - 1;
  }

  /**
   * GetTilesInRange visits the acting unit's row, then the row above, then the row below, each
   * from the frontline outward: the tiles it offers appear strictly in that order, so none twice.
   */
  lemma TilesInRangeOrder(current: Pos, isPlayer1: bool, vt: ValidTargets, range: int)
    ensures Ranked(current, isPlayer1, TilesInRange(current, isPlayer1, vt, range))
    ensures Distinct(TilesInRange(current, isPlayer1, vt, range))
  {
    RowsScanRanked(current, isPlayer1, vt, range, 3);
  }
}
