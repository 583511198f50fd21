/**
 * Read-only board queries over the tile array: the cards standing in a column, and in a
 * range of columns.
 */
module GridSystem {
  import opened Geometry
  import opened Scene

  /** A 6 by 5 array with a tile in every cell, as GridManager builds it. */
  ghost predicate Filled(grid: array2<Tile?>)
    reads grid
  {
    grid.Length0 == Width && grid.Length1 == Height
    && forall i, j :: 0 <= i < Width && 0 <= j < Height ==> grid[i, j] != null
  }

  /** Positions (x, y), (x, y - 1), ..., (x, 0): a column read from the top row down. */
  function ColumnDown(x: int, y: int): seq<Pos>
    decreases y + 1
  {
    if y < 0 then [] else [Pos(x, y)] + ColumnDown(x, y - 1)
  }

  /** Columns startColumn .. endColumn - 1 in ascending order, each read from row 4 down. */
  function Columns(startColumn: int, endColumn: int): seq<Pos>
    decreases endColumn - startColumn
  {
    if endColumn <= startColumn then []
    else Columns(startColumn, endColumn - 1) + ColumnDown(endColumn - 1, Height - 1)
  }

  predicate AllOnBoard(ps: seq<Pos>) {
    forall i :: 0 <= i < |ps| ==> OnBoard(ps[i])
  }

  /** The cards standing on the tiles at ps, in the order of ps; empty tiles are skipped. */
  ghost function Occupants(grid: array2<Tile?>, ps: seq<Pos>): seq<Card>
    reads grid, set i, j | 0 <= i < grid.Length0 && 0 <= j < grid.Length1 :: grid[i, j]
    requires Filled(grid) && AllOnBoard(ps)
  {
    if ps == [] then []
    else
      var card := grid[ps[0].x, ps[0].y].activeCard;
      (if card != null then [card] else []) + Occupants(grid, ps[1..])
  }

  /** The occupied tiles among ps, as positions. */
  ghost function OccupiedAmong(grid: array2<Tile?>, ps: seq<Pos>): set<Pos>
    reads grid, set i, j | 0 <= i < grid.Length0 && 0 <= j < grid.Length1 :: grid[i, j]
    requires Filled(grid)
  {
    set p | p in ps && OccupiedAt(grid, p)
  }

  ghost predicate OccupiedAt(grid: array2<Tile?>, p: Pos)
    reads grid, set i, j | 0 <= i < grid.Length0 && 0 <= j < grid.Length1 :: grid[i, j]
    requires Filled(grid)
  {
    OnBoard(p) && grid[p.x, p.y].activeCard != null
  }

  /** CardsInColumn: the occupants of column x, from row 4 down to row 0. */
  method CardsInColumn(grid: array2<Tile?>, x: int) returns (cardsInColumn: seq<Card>)
    requires Filled(grid) && 0 <= x < Width
    ensures cardsInColumn == OccupantsDown(grid, x, Height - 1)
  {
    cardsInColumn := [];
    var y := Height - 1;
    while y >= 0
      invariant -1 <= y <= Height - 1
      invariant cardsInColumn + OccupantsDown(grid, x, y) == OccupantsDown(grid, x, Height - 1)
    {
      ghost var rest := OccupantsDown(grid, x, y - 1);
      if grid[x, y].activeCard != null {
        assert cardsInColumn + ([grid[x, y].activeCard] + rest) == (cardsInColumn + [grid[x, y].activeCard]) + rest;
        cardsInColumn := cardsInColumn + [grid[x, y].activeCard];
      } else {
        assert [] + rest == rest;
      }
      y := y - 1;
    }
    assert cardsInColumn + [] == cardsInColumn;
  }

  /** The occupants of column x from row y down to row 0, read straight off the tiles. */
  ghost function OccupantsDown(grid: array2<Tile?>, x: int, y: int): seq<Card>
    reads grid, set i, j | 0 <= i < grid.Length0 && 0 <= j < grid.Length1 :: grid[i, j]
    requires Filled(grid) && 0 <= x < Width && y < Height
    decreases y + 1
  {
    if y < 0 then []
    else
      var card := grid[x, y].activeCard;
      (if card != null then [card] else []) + OccupantsDown(grid, x, y - 1)
  }

  lemma {:induction false} OccupantsDownColumn(grid: array2<Tile?>, x: int, y: int)
    requires Filled(grid) && 0 <= x < Width && y < Height
    ensures AllOnBoard(ColumnDown(x, y)) && OccupantsDown(grid, x, y) == Occupants(grid, ColumnDown(x, y))
    decreases y + 1
  {
    ColumnDownFacts(x, y);
    if y >= 0 {
      OccupantsDownColumn(grid, x, y - 1);
      assert ColumnDown(x, y)[0] == Pos(x, y);
      assert ColumnDown(x, y)[1..] == ColumnDown(x, y - 1);
    }
  }

  /** ActiveCards: the occupants of columns startColumn .. endColumn - 1, column by column. */
  method ActiveCards(grid: array2<Tile?>, startColumn: int, endColumn: int) returns (activeCards: seq<Card>)
    requires Filled(grid)
    requires startColumn >= endColumn || (0 <= startColumn && endColumn <= Width)
    ensures activeCards == OccupantsFrom(grid, startColumn, endColumn)
    ensures startColumn >= endColumn ==> activeCards == []
  {
    activeCards := [];
    var x := startColumn;
    while x < endColumn
      invariant x == startColumn || startColumn < x <= endColumn
      invariant activeCards == OccupantsFrom(grid, startColumn, x)
    {
      var column := CardsInColumn(grid, x);
      activeCards := activeCards + column;
      x := x + 1;
    }
  }

  /** The occupants of columns startColumn .. endColumn - 1, each column read from row 4 down. */
  ghost function OccupantsFrom(grid: array2<Tile?>, startColumn: int, endColumn: int): seq<Card>
    reads grid, set i, j | 0 <= i < grid.Length0 && 0 <= j < grid.Length1 :: grid[i, j]
    requires Filled(grid) && (startColumn >= endColumn || (0 <= startColumn && endColumn <= Width))
    decreases endColumn - startColumn
  {
    if endColumn <= startColumn then []
    else OccupantsFrom(grid, startColumn, endColumn - 1) + OccupantsDown(grid, endColumn - 1, Height - 1)
  }

  lemma {:induction false} OccupantsFromColumns(grid: array2<Tile?>, startColumn: int, endColumn: int)
    requires Filled(grid) && (startColumn >= endColumn || (0 <= startColumn && endColumn <= Width))
    ensures AllOnBoard(Columns(startColumn, endColumn))
    ensures OccupantsFrom(grid, startColumn, endColumn) == Occupants(grid, Columns(startColumn, endColumn))
    decreases endColumn - startColumn
  {
    ColumnsFacts(startColumn, endColumn);
    if startColumn < endColumn {
      OccupantsFromColumns(grid, startColumn, endColumn - 1);
      OccupantsDownColumn(grid, endColumn - 1, Height - 1);
      OccupantsAppend(grid, Columns(startColumn, endColumn - 1), ColumnDown(endColumn - 1, Height - 1));
    }
  }

  lemma {:induction false} ColumnDownFacts(x: int, y: int)
    ensures forall p :: p in ColumnDown(x, y) <==> p.x == x && 0 <= p.y <= y
    ensures Distinct(ColumnDown(x, y))
    ensures 0 <= x < Width && y < Height ==> AllOnBoard(ColumnDown(x, y))
    decreases y + 1
  {
    if y >= 0 {
      ColumnDownFacts(x, y - 1);
      var s := ColumnDown(x, y);
      assert s == [Pos(x, y)] + ColumnDown(x, y - 1);
      forall i, j | 0 <= i < j < |s| ensures s[i] != s[j] {
        if i == 0 {
          assert s[j] in ColumnDown(x, y - 1);
        } else {
          assert s[i] == ColumnDown(x, y - 1)[i - 1] && s[j] == ColumnDown(x, y - 1)[j - 1];
        }
      }
      if 0 <= x < Width && y < Height {
        forall i | 0 <= i < |s| ensures OnBoard(s[i]) {
          assert s[i] in s;
        }
      }
    }
  }

  lemma {:induction false} ColumnsFacts(startColumn: int, endColumn: int)
    ensures forall p :: p in Columns(startColumn, endColumn) <==>
      startColumn <= p.x < endColumn && 0 <= p.y < Height
    ensures Distinct(Columns(startColumn, endColumn))
    ensures 0 <= startColumn && endColumn <= Width ==> AllOnBoard(Columns(startColumn, endColumn))
    ensures startColumn >= endColumn ==> Columns(startColumn, endColumn) == [] && AllOnBoard(Columns(startColumn, endColumn))
    decreases endColumn - startColumn
  {
    if startColumn < endColumn {
      ColumnsFacts(startColumn, endColumn - 1);
      ColumnDownFacts(endColumn - 1, Height - 1);
      var a, b := Columns(startColumn, endColumn - 1), ColumnDown(endColumn - 1, Height - 1);
      var s := a + b;
      forall i, j | 0 <= i < j < |s| ensures s[i] != s[j] {
        if j < |a| {
        } else if i >= |a| {
          assert s[i] == b[i - |a|] && s[j] == b[j - |a|];
        } else {
          assert s[i] in a && s[j] in b;
        }
      }
      if 0 <= startColumn && endColumn <= Width {
        forall i | 0 <= i < |s| ensures OnBoard(s[i]) {
          assert s[i] in s;
        }
      }
    }
  }

  lemma {:induction false} OccupantsAppend(grid: array2<Tile?>, a: seq<Pos>, b: seq<Pos>)
    requires Filled(grid)
    requires AllOnBoard(a) && AllOnBoard(b)
    ensures Occupants(grid, a + b) == Occupants(grid, a) + Occupants(grid, b)
  {
    if a == [] {
      assert a + b == b;
    } else {
      assert (a + b)[1..] == a[1..] + b;
      OccupantsAppend(grid, a[1..], b);
    }
  }

  /** Every card returned stands on one of the tiles scanned, and every occupant is returned. */
  lemma {:induction false} OccupantsMembers(grid: array2<Tile?>, ps: seq<Pos>, c: Card)
    requires Filled(grid) && AllOnBoard(ps)
    ensures c in Occupants(grid, ps) <==> exists i :: 0 <= i < |ps| && grid[ps[i].x, ps[i].y].activeCard == c
  {
    if ps != [] {
      OccupantsMembers(grid, ps[1..], c);
      if c in Occupants(grid, ps[1..]) {
        var i :| 0 <= i < |ps[1..]| && grid[ps[1..][i].x, ps[1..][i].y].activeCard == c;
        assert grid[ps[i + 1].x, ps[i + 1].y].activeCard == c;
      }
      if exists i :: 0 <= i < |ps| && grid[ps[i].x, ps[i].y].activeCard == c {
        var i :| 0 <= i < |ps| && grid[ps[i].x, ps[i].y].activeCard == c;
        if i > 0 {
          assert ps[1..][i - 1] == ps[i];
        }
      }
    }
  }

  /** Over distinct positions, one card is returned per occupied tile. */
  lemma {:induction false} OccupantsCount(grid: array2<Tile?>, ps: seq<Pos>)
    requires Filled(grid) && AllOnBoard(ps)
    requires Distinct(ps)
    ensures |Occupants(grid, ps)| == |OccupiedAmong(grid, ps)|
  {
    if ps == [] {
      assert OccupiedAmong(grid, ps) == {};
    } else {
      var rest := ps[1..];
      DistinctTail(ps);
      OccupantsCount(grid, rest);
      assert ps == [ps[0]] + rest;
      var head := if OccupiedAt(grid, ps[0]) then {ps[0]} else {};
      assert OccupiedAmong(grid, ps) == head + OccupiedAmong(grid, rest);
      assert ps[0] !in OccupiedAmong(grid, rest);
    }
  }

  lemma DistinctTail<T>(s: seq<T>)
    requires Distinct(s) && s != []
    ensures Distinct(s[1..]) && s[0] !in s[1..]
  {
    forall i, j | 0 <= i < j < |s[1..]| ensures s[1..][i] != s[1..][j] {
      assert s[1..][i] == s[i + 1] && s[1..][j] == s[j + 1];
    }
  }

  /** The occupied tiles of columns startColumn .. endColumn - 1. */
  ghost function OccupiedTiles(grid: array2<Tile?>, startColumn: int, endColumn: int): set<Pos>
    reads grid, set i, j | 0 <= i < grid.Length0 && 0 <= j < grid.Length1 :: grid[i, j]
    requires Filled(grid) && 0 <= startColumn && endColumn <= Width
  {
    set x, y | startColumn <= x < endColumn && 0 <= y < Height && grid[x, y].activeCard != null :: Pos(x, y)
  }

  /**
   * What ActiveCards returns, stated without the scan: one card per occupied tile of the range,
   * and exactly the cards standing in the range.
   */
  lemma ActiveCardsMeaning(grid: array2<Tile?>, startColumn: int, endColumn: int, c: Card)
    requires Filled(grid) && 0 <= startColumn && endColumn <= Width
    ensures |OccupantsFrom(grid, startColumn, endColumn)| == |OccupiedTiles(grid, startColumn, endColumn)|
    ensures c in OccupantsFrom(grid, startColumn, endColumn) <==>
      exists x, y :: startColumn <= x < endColumn && 0 <= y < Height && grid[x, y].activeCard == c
  {
    OccupantsFromColumns(grid, startColumn, endColumn);
    ColumnsFacts(startColumn, endColumn);
    var ps := Columns(startColumn, endColumn);
    OccupantsCount(grid, ps);
    assert OccupiedAmong(grid, ps) == OccupiedTiles(grid, startColumn, endColumn) by {
      forall p ensures p in OccupiedAmong(grid, ps) <==> p in OccupiedTiles(grid, startColumn, endColumn) {
        if p in OccupiedTiles(grid, startColumn, endColumn) {
          assert p in ps;
          var i :| 0 <= i < |ps| && ps[i] == p;
        }
      }
    }
    OccupantsMembers(grid, ps, c);
    if exists x, y :: startColumn <= x < endColumn && 0 <= y < Height && grid[x, y].activeCard == c {
      var x, y :| startColumn <= x < endColumn && 0 <= y < Height && grid[x, y].activeCard == c;
      assert Pos(x, y) in ps;
      var i :| 0 <= i < |ps| && ps[i] == Pos(x, y);
    }
  }

  /** What CardsInColumn returns: one card per occupied tile of column x, and exactly the cards standing there. */
  lemma CardsInColumnMeaning(grid: array2<Tile?>, x: int, c: Card)
    requires Filled(grid) && 0 <= x < Width
    ensures |OccupantsDown(grid, x, Height - 1)| == |OccupiedTiles(grid, x, x + 1)|
    ensures c in OccupantsDown(grid, x, Height - 1) <==> exists y :: 0 <= y < Height && grid[x, y].activeCard == c
  {
    ActiveCardsMeaning(grid, x, x + 1, c);
    assert OccupantsFrom(grid, x, x + 1) == [] + OccupantsDown(grid, x, Height - 1);
  }
}
