/** The board: a 6 by 5 array of tiles, built once, and the queries on it. */
module GridManagement {
  import opened Geometry
  import opened Scene
  import opened TurnCycle

  class GridManager {
    var grid: array2<Tile?>
    /** The tiles the grid holds, so that predicates about them can name what they read. */
    ghost var tiles: set<Tile?>

    /** Every cell holds a tile that knows its own position and side. */
    ghost predicate Valid()
      reads this, grid, tiles
    {
      grid.Length0 == Width && grid.Length1 == Height
      && forall x, y :: 0 <= x < Width && 0 <= y < Height ==>
           grid[x, y] != null && grid[x, y] in tiles && grid[x, y].gridPosition == Pos(x, y)
           && grid[x, y].isPlayer1 == IsPlayer1Column(x)
    }

    /** Each cell holds its own tile: no tile object sits in two cells. */
    lemma TilesDistinct(x: int, y: int, x': int, y': int)
      requires Valid()
      requires 0 <= x < Width && 0 <= y < Height && 0 <= x' < Width && 0 <= y' < Height
      requires grid[x, y] == grid[x', y']
      ensures x == x' && y == y'
    {
      assert grid[x, y].gridPosition == Pos(x, y) && grid[x', y'].gridPosition == Pos(x', y');
    }

    /** Init: one fresh, empty tile per cell, column by column. */
    constructor Init()
      ensures Valid() && fresh(grid)
      ensures forall x, y :: 0 <= x < Width && 0 <= y < Height ==>
        grid[x, y] != null && fresh(grid[x, y])
        && grid[x, y].activeCard == null && !grid[x, y].hasCard && grid[x, y].visible
    {
      grid := new Tile?[Width, Height];
      new;
      var x := 0;
      while x < Width
        invariant 0 <= x <= Width
        invariant fresh(grid) && grid.Length0 == Width && grid.Length1 == Height
        invariant forall i, j :: 0 <= i < x && 0 <= j < Height ==>
          grid[i, j] != null && fresh(grid[i, j]) && Spawned(grid[i, j], i, j)
      {
        var y := 0;
        while y < Height
          invariant 0 <= y <= Height
          invariant fresh(grid) && grid.Length0 == Width && grid.Length1 == Height
          invariant forall i, j :: (0 <= i < x && 0 <= j < Height) || (i == x && 0 <= j < y) ==>
            grid[i, j] != null && fresh(grid[i, j]) && Spawned(grid[i, j], i, j)
        {
          SpawnTile(x, y);
          y := y + 1;
        }
        x := x + 1;
      }
      tiles := set i, j | 0 <= i < Width && 0 <= j < Height :: grid[i, j];
    }

    method SpawnTile(x: int, y: int)
      requires 0 <= x < grid.Length0 && 0 <= y < grid.Length1
      modifies grid
      ensures grid[x, y] != null && fresh(grid[x, y]) && Spawned(grid[x, y], x, y)
      ensures forall i, j :: 0 <= i < grid.Length0 && 0 <= j < grid.Length1 && (i != x || j != y) ==>
        grid[i, j] == old(grid[i, j])
    {
      var spawnedTile := new Tile();
      spawnedTile.SetGridPosition(x, y);
      spawnedTile.SetIsPlayer1(x < 3);
      grid[x, y] := spawnedTile;
    }

    /** The opponent's frontline column is empty: units may advance. */
    method CanAdvance(currentTurn: GameState) returns (r: bool)
      requires Valid()
      ensures r <==> CanAdvanceFor(currentTurn)
    {
      var isPlayer1Turn := currentTurn == Player1Turn;
      var occupied := CheckColumn(if isPlayer1Turn then 3 else 2);
      r := !occupied;
    }

    /** No unit stands in column x. */
    ghost predicate ColumnEmpty(x: int)
      reads this, grid, tiles
      requires Valid() && 0 <= x < Width
    {
      forall y :: 0 <= y < Height ==> grid[x, y].activeCard == null
    }

    method CheckColumn(x: int) returns (r: bool)
      requires Valid() && 0 <= x < Width
      ensures r <==> exists y :: 0 <= y < Height && grid[x, y].activeCard != null
      ensures r <==> !ColumnEmpty(x)
    {
      var y := 0;
      while y < Height
        invariant 0 <= y <= Height
        invariant forall j :: 0 <= j < y ==> grid[x, j].activeCard == null
      {
        if grid[x, y].activeCard != null {
          return true;
        }
        y := y + 1;
      }
      return false;
    }

    method CheckRow(y: int) returns (r: bool)
      requires Valid() && 0 <= y < Height
      ensures r <==> exists x :: 0 <= x < Width && grid[x, y].activeCard != null
    {
      var x := 0;
      while x < Width
        invariant 0 <= x <= Width
        invariant forall i :: 0 <= i < x ==> grid[i, y].activeCard == null
      {
        if grid[x, y].activeCard != null {
          return true;
        }
        x := x + 1;
      }
      return false;
    }

    /** Shows or hides the tiles of column x; no other tile and no other field changes. */
    method ColumnSetActive(x: int, value: bool)
      requires Valid() && 0 <= x < Width
      modifies (set y | 0 <= y < Height :: grid[x, y])`visible
      ensures Valid()
      ensures Visibility() == ShowColumn(old(Visibility()), x, value)
    {
      ghost var visible0 := Visibility();
      var y := 0;
      while y < Height
        invariant 0 <= y <= Height
        invariant Valid()
        invariant forall i, j :: 0 <= i < Width && 0 <= j < Height ==>
          grid[i, j].visible == (if i == x && j < y then value else old(grid[i, j].visible))
      {
        grid[x, y].SetActive(value);
        y := y + 1;
      }
      VisibilityFromTiles(visible0, x, value);
    }

    /** The visibility map of a board whose column x shows value and whose other tiles show what v says. */
    lemma VisibilityFromTiles(v: map<Pos, bool>, x: int, value: bool)
      requires Valid()
      requires forall i, j :: 0 <= i < Width && 0 <= j < Height ==> Pos(i, j) in v
      requires forall p :: p in v ==> OnBoard(p)
      requires forall i, j :: 0 <= i < Width && 0 <= j < Height ==>
        grid[i, j].visible == (if i == x then value else v[Pos(i, j)])
      ensures Visibility() == ShowColumn(v, x, value)
    {
      assert Visibility().Keys == v.Keys by {
        forall p | p in v ensures p in Visibility() {
          assert OnBoard(p);
        }
      }
    }

    /** Whether each tile is shown, by position. */
    ghost function Visibility(): map<Pos, bool>
      reads this, grid, tiles
      requires Valid()
    {
      map x, y | 0 <= x < Width && 0 <= y < Height :: Pos(x, y) := grid[x, y].visible
    }

    /** CanAdvance's answer on a turn: the opponent's frontline holds no unit. */
    ghost predicate CanAdvanceFor(currentTurn: GameState)
      reads this, grid, tiles
      requires Valid()
    {
      ColumnEmpty(Frontline(currentTurn != Player1Turn))
    }

    /** The tiles at the given positions, in the same order. */
    ghost predicate TilesAre(r: seq<Tile>, ps: seq<Pos>)
      reads this, grid
      requires grid.Length0 == Width && grid.Length1 == Height
    {
      |r| == |ps| && forall i :: 0 <= i < |r| ==> OnBoard(ps[i]) && r[i] == grid[ps[i].x, ps[i].y]
    }

    lemma TilesAreAppend(r: seq<Tile>, ps: seq<Pos>, t: Tile, p: Pos)
      requires grid.Length0 == Width && grid.Length1 == Height
      requires TilesAre(r, ps) && OnBoard(p) && t == grid[p.x, p.y]
      ensures TilesAre(r + [t], ps + [p])
    {
    }

    /**
     * GetBoardHalf as written: scans the board in x-then-y order, keeping tiles with
     * x < 0 for player 1 and x > 0 for player 2.
     */
    method GetBoardHalf(isPlayer1: bool) returns (r: seq<Tile>)
      requires Valid()
      ensures TilesAre(r, Filter(AllTiles(), HalfAsWritten(isPlayer1)))
    {
      ghost var keep := HalfAsWritten(isPlayer1);
      ghost var target := Filter(AllTiles(), keep);
      r := [];
      ghost var taken: seq<Pos> := [];
      ScanStart(keep, target);
      var x := 0;
      while x < Width
        invariant 0 <= x <= Width
        invariant Valid() && TilesAre(r, taken)
        invariant taken + Filter(Block(x, Width, 0, Height), keep) == target
      {
        ScanColumnStart(taken, x, keep, target);
        r, taken := ScanColumn(x, isPlayer1, r, taken, keep, target);
        ScanColumnEnd(taken, x, keep, target);
        x := x + 1;
      }
      ScanDone(taken, keep, target);
    }

    /** The inner loop of GetBoardHalf: the tiles of column x that pass the test, bottom to top. */
    method ScanColumn(x: int, isPlayer1: bool, r0: seq<Tile>, ghost taken0: seq<Pos>,
                      ghost keep: Pos -> bool, ghost target: seq<Pos>)
      returns (r: seq<Tile>, ghost taken: seq<Pos>)
      requires Valid() && 0 <= x < Width && keep == HalfAsWritten(isPlayer1)
      requires TilesAre(r0, taken0) && taken0 + ScanRest(x, 0, keep) == target
      ensures Valid() && TilesAre(r, taken) && taken + ScanRest(x, Height, keep) == target
    {
      r, taken := r0, taken0;
      var y := 0;
      while y < Height
        invariant 0 <= y <= Height
        invariant TilesAre(r, taken)
        invariant taken + ScanRest(x, y, keep) == target
      {
        var tile := grid[x, y];
        ScanCell(taken, x, y, keep, target);
        if (isPlayer1 && tile.gridPosition.x < 0) || (!isPlayer1 && tile.gridPosition.x > 0) {
          assert keep(Pos(x, y));
          TilesAreAppend(r, taken, tile, Pos(x, y));
          r, taken := r + [tile], taken + [Pos(x, y)];
        } else {
          assert !keep(Pos(x, y));
          assert taken + [] == taken;
        }
        y := y + 1;
      }
    }
  }

  /** A visibility map with column x set to value. */
  function ShowColumn(v: map<Pos, bool>, x: int, value: bool): (r: map<Pos, bool>)
    ensures r.Keys == v.Keys
    ensures forall p :: p in r ==> r[p] == if p.x == x then value else v[p]
  {
    map p | p in v :: if p.x == x then value else v[p]
  }

  ghost predicate Spawned(t: Tile, x: int, y: int)
    reads t
  {
    t.gridPosition == Pos(x, y) && t.isPlayer1 == IsPlayer1Column(x)
    && t.activeCard == null && !t.hasCard && t.visible
  }

  /** What the x-then-y scan has yet to take once it stands at cell (x, y). */
  function ScanRest(x: int, y: int, keep: Pos -> bool): seq<Pos> {
    Filter(Column(x, y, Height), keep) + Filter(Block(x + 1, Width, 0, Height), keep)
  }

  lemma ScanStart(keep: Pos -> bool, target: seq<Pos>)
    requires target == Filter(AllTiles(), keep)
    ensures [] + Filter(Block(0, Width, 0, Height), keep) == target
  {
    assert [] + Filter(Block(0, Width, 0, Height), keep) == Filter(AllTiles(), keep);
  }

  lemma ScanDone(taken: seq<Pos>, keep: Pos -> bool, target: seq<Pos>)
    requires taken + Filter(Block(Width, Width, 0, Height), keep) == target
    ensures taken == target
  {
    assert Block(Width, Width, 0, Height) == [];
    assert taken + [] == taken;
  }

  lemma ScanColumnStart(taken: seq<Pos>, x: int, keep: Pos -> bool, target: seq<Pos>)
    requires x < Width
    requires taken + Filter(Block(x, Width, 0, Height), keep) == target
    ensures taken + ScanRest(x, 0, keep) == target
  {
    assert Block(x, Width, 0, Height) == Column(x, 0, Height) + Block(x + 1, Width, 0, Height);
    FilterAppend(Column(x, 0, Height), Block(x + 1, Width, 0, Height), keep);
  }

  lemma ScanCell(taken: seq<Pos>, x: int, y: int, keep: Pos -> bool, target: seq<Pos>)
    requires y < Height
    requires taken + ScanRest(x, y, keep) == target
    ensures (taken + (if keep(Pos(x, y)) then [Pos(x, y)] else [])) + ScanRest(x, y + 1, keep) == target
  {
    var head := if keep(Pos(x, y)) then [Pos(x, y)] else [];
    var c := Filter(Column(x, y + 1, Height), keep);
    var b := Filter(Block(x + 1, Width, 0, Height), keep);
    FilterColumnHead(x, y, keep);
    calc {
      (taken + head) + ScanRest(x, y + 1, keep);
      (taken + head) + (c + b);
      taken + ((head + c) + b);
      taken + ScanRest(x, y, keep);
    }
  }

  lemma FilterColumnHead(x: int, y: int, keep: Pos -> bool)
    requires y < Height
    ensures Filter(Column(x, y, Height), keep)
      == (if keep(Pos(x, y)) then [Pos(x, y)] else []) + Filter(Column(x, y + 1, Height), keep)
  {
    assert Column(x, y, Height)[1..] == Column(x, y + 1, Height);
  }

  lemma ScanColumnEnd(taken: seq<Pos>, x: int, keep: Pos -> bool, target: seq<Pos>)
    requires taken + ScanRest(x, Height, keep) == target
    ensures taken + Filter(Block(x + 1, Width, 0, Height), keep) == target
  {
    assert Column(x, Height, Height) == [];
    assert ScanRest(x, Height, keep) == Filter(Block(x + 1, Width, 0, Height), keep);
  }

  /** The test GetBoardHalf applies to each tile. */
  function HalfAsWritten(isPlayer1: bool): Pos -> bool {
    (p: Pos) => (isPlayer1 && p.x < 0) || (!isPlayer1 && p.x > 0)
  }

  /** As written, player 1's half is always empty: no tile has a negative column. */
  lemma BoardHalfAsWrittenEmptyForPlayer1()
    ensures Filter(AllTiles(), HalfAsWritten(true)) == []
  {
    forall i | 0 <= i < |AllTiles()| ensures !HalfAsWritten(true)(AllTiles()[i]) {
      BlockMembers(0, Width, 0, Height, AllTiles()[i]);
    }
    FilterKeepsNone(AllTiles(), HalfAsWritten(true));
  }

  /** As written, player 2's half is every tile except column 0: 25 tiles, not 15. */
  lemma BoardHalfAsWrittenForPlayer2()
    ensures Filter(AllTiles(), HalfAsWritten(false)) == Block(1, Width, 0, Height)
    ensures |Filter(AllTiles(), HalfAsWritten(false))| == 25
  {
    var keep := HalfAsWritten(false);
    assert AllTiles() == Column(0, 0, Height) + Block(1, Width, 0, Height);
    FilterAppend(Column(0, 0, Height), Block(1, Width, 0, Height), keep);
    forall i | 0 <= i < |Column(0, 0, Height)| ensures !keep(Column(0, 0, Height)[i]) {
      ColumnMembers(0, 0, Height, Column(0, 0, Height)[i]);
    }
    FilterKeepsNone(Column(0, 0, Height), keep);
    forall i | 0 <= i < |Block(1, Width, 0, Height)| ensures keep(Block(1, Width, 0, Height)[i]) {
      BlockMembers(1, Width, 0, Height, Block(1, Width, 0, Height)[i]);
    }
    FilterKeepsAll(Block(1, Width, 0, Height), keep);
    BlockLength(1, Width, 0, Height);
  }

  /** The evidently intended half: the tiles of the player's own three columns, in x-then-y order. */
  function BoardHalf(isPlayer1: bool): (r: seq<Pos>)
    ensures forall p :: p in r <==> OnBoard(p) && IsPlayer1Column(p.x) == isPlayer1
    ensures |r| == 15 && Sorted(r)
  {
    var r := if isPlayer1 then Block(0, 3, 0, Height) else Block(3, Width, 0, Height);
    BlockLength(0, 3, 0, Height);
    BlockLength(3, Width, 0, Height);
    BlockSorted(0, 3, 0, Height);
    BlockSorted(3, Width, 0, Height);
    forall p ensures p in r <==> OnBoard(p) && IsPlayer1Column(p.x) == isPlayer1 {
      BlockMembers(0, 3, 0, Height, p);
      BlockMembers(3, Width, 0, Height, p);
    }
    r
  }
}
