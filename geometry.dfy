/**
 * The battle board: six columns (x) by five rows (y). Player 1 owns columns 0..2 and
 * player 2 owns columns 3..5.
 */
module Geometry {
  const Width: int := 6
  const Height: int := 5

  datatype Pos = Pos(x: int, y: int)

  predicate OnBoard(p: Pos) {
    0 <= p.x < Width && 0 <= p.y < Height
  }

  /** The side a column belongs to, as GridManager.SpawnTile assigns it. */
  predicate IsPlayer1Column(x: int) {
    x < 3
  }

  /** The frontline column of a player: the column next to the board's middle. */
  function Frontline(isPlayer1: bool): int {
    if isPlayer1 then 2 else 3
  }

  /** The direction a player's units face: towards the opponent. */
  function Forward(isPlayer1: bool): int {
    if isPlayer1 then 1 else -1
  }

  /** Mathf.Max, Mathf.Min and Mathf.Abs on integers. */
  function Max(a: int, b: int): (r: int)
    ensures r >= a && r >= b && (r == a || r == b)
  {
    if a >= b then a else b
  }

  function Min(a: int, b: int): (r: int)
    ensures r <= a && r <= b && (r == a || r == b)
  {
    if a <= b then a else b
  }

  function Abs(a: int): (r: int)
    ensures r >= 0 && (r == a || r == -a)
  {
    if a < 0 then -a else a
  }

  /** The tiles of column x from row y0 up to (not including) row y1. */
  function Column(x: int, y0: int, y1: int): seq<Pos>
    decreases y1 - y0
  {
    if y0 >= y1 then [] else [Pos(x, y0)] + Column(x, y0 + 1, y1)
  }

  /** The rectangle [x0, x1) by [y0, y1), column by column, each column in ascending rows. */
  function Block(x0: int, x1: int, y0: int, y1: int): seq<Pos>
    decreases x1 - x0
  {
    if x0 >= x1 then [] else Column(x0, y0, y1) + Block(x0 + 1, x1, y0, y1)
  }

  /** The whole board in x-then-y order. */
  function AllTiles(): seq<Pos> {
    Block(0, Width, 0, Height)
  }

  function Filter(s: seq<Pos>, keep: Pos -> bool): (r: seq<Pos>)
    ensures |r| <= |s|
  {
    if s == [] then [] else (if keep(s[0]) then [s[0]] else []) + Filter(s[1..], keep)
  }

  /** x-then-y order. */
  predicate Before(p: Pos, q: Pos) {
    p.x < q.x || (p.x == q.x && p.y < q.y)
  }

  predicate Sorted(s: seq<Pos>) {
    forall i, j :: 0 <= i < j < |s| ==> Before(s[i], s[j])
  }

  predicate Distinct<T(==)>(s: seq<T>) {
    forall i, j :: 0 <= i < j < |s| ==> s[i] != s[j]
  }

  lemma {:induction false} FilterAppend(a: seq<Pos>, b: seq<Pos>, keep: Pos -> bool)
    ensures Filter(a + b, keep) == Filter(a, keep) + Filter(b, keep)
  {
    if a == [] {
      assert a + b == b;
    } else {
      var head := if keep(a[0]) then [a[0]] else [];
      assert (a + b)[0] == a[0];
      assert (a + b)[1..] == a[1..] + b;
      FilterAppend(a[1..], b, keep);
      calc {
        Filter(a + b, keep);
        head + Filter(a[1..] + b, keep);
        head + (Filter(a[1..], keep) + Filter(b, keep));
        (head + Filter(a[1..], keep)) + Filter(b, keep);
      }
    }
  }

  lemma {:induction false} FilterMembers(s: seq<Pos>, keep: Pos -> bool, p: Pos)
    ensures p in Filter(s, keep) <==> p in s && keep(p)
  {
    if s != [] {
      FilterMembers(s[1..], keep, p);
      assert p in s <==> p == s[0] || p in s[1..];
    }
  }

  /** Filtering keeps the relative order of what it keeps. */
  lemma {:induction false} FilterSorted(s: seq<Pos>, keep: Pos -> bool)
    requires Sorted(s)
    ensures Sorted(Filter(s, keep))
  {
    if s != [] {
      FilterSorted(s[1..], keep);
      var t := Filter(s[1..], keep);
      forall q | q in t ensures Before(s[0], q) {
        FilterMembers(s[1..], keep, q);
      }
    }
  }

  lemma {:induction false} ColumnMembers(x: int, y0: int, y1: int, p: Pos)
    ensures p in Column(x, y0, y1) <==> p.x == x && y0 <= p.y < y1
    decreases y1 - y0
  {
    if y0 < y1 {
      ColumnMembers(x, y0 + 1, y1, p);
    }
  }

  lemma {:induction false} ColumnSorted(x: int, y0: int, y1: int)
    ensures Sorted(Column(x, y0, y1))
    decreases y1 - y0
  {
    if y0 < y1 {
      ColumnSorted(x, y0 + 1, y1);
      forall q | q in Column(x, y0 + 1, y1) ensures Before(Pos(x, y0), q) {
        ColumnMembers(x, y0 + 1, y1, q);
      }
    }
  }

  lemma {:induction false} BlockMembers(x0: int, x1: int, y0: int, y1: int, p: Pos)
    ensures p in Block(x0, x1, y0, y1) <==> x0 <= p.x < x1 && y0 <= p.y < y1
    decreases x1 - x0
  {
    if x0 < x1 {
      ColumnMembers(x0, y0, y1, p);
      BlockMembers(x0 + 1, x1, y0, y1, p);
    }
  }

  /** The whole board holds exactly the tiles on the board. */
  lemma AllTilesMembers(p: Pos)
    ensures p in AllTiles() <==> OnBoard(p)
  {
    BlockMembers(0, Width, 0, Height, p);
  }

  lemma {:induction false} BlockSorted(x0: int, x1: int, y0: int, y1: int)
    ensures Sorted(Block(x0, x1, y0, y1))
    decreases x1 - x0
  {
    if x0 < x1 {
      ColumnSorted(x0, y0, y1);
      BlockSorted(x0 + 1, x1, y0, y1);
      var c, b := Column(x0, y0, y1), Block(x0 + 1, x1, y0, y1);
      forall i, j | 0 <= i < j < |c + b| ensures Before((c + b)[i], (c + b)[j]) {
        if i < |c| && j >= |c| {
          assert (c + b)[i] in c && (c + b)[j] in b;
          ColumnMembers(x0, y0, y1, (c + b)[i]);
          BlockMembers(x0 + 1, x1, y0, y1, (c + b)[j]);
        } else if i >= |c| {
          assert (c + b)[i] == b[i - |c|] && (c + b)[j] == b[j - |c|];
        }
      }
    }
  }

  lemma SortedDistinct(s: seq<Pos>)
    requires Sorted(s)
    ensures Distinct(s)
  {
    forall i, j | 0 <= i < j < |s| ensures s[i] != s[j] {
      assert Before(s[i], s[j]);
    }
  }

  lemma {:induction false} ColumnLength(x: int, y0: int, y1: int)
    ensures |Column(x, y0, y1)| == if y0 < y1 then y1 - y0 else 0
    decreases y1 - y0
  {
    if y0 < y1 {
      ColumnLength(x, y0 + 1, y1);
    }
  }

  /** A rectangle holds one tile per column and row. */
  lemma {:induction false} BlockLength(x0: int, x1: int, y0: int, y1: int)
    ensures |Block(x0, x1, y0, y1)| == if x0 < x1 && y0 < y1 then (x1 - x0) * (y1 - y0) else 0
    decreases x1 - x0
  {
    if x0 < x1 {
      ColumnLength(x0, y0, y1);
      BlockLength(x0 + 1, x1, y0, y1);
      if y0 < y1 {
        assert (x1 - x0) * (y1 - y0) == (y1 - y0) + (x1 - (x0 + 1)) * (y1 - y0);
      }
    }
  }

  lemma {:induction false} FilterKeepsAll(s: seq<Pos>, keep: Pos -> bool)
    requires forall i :: 0 <= i < |s| ==> keep(s[i])
    ensures Filter(s, keep) == s
  {
    if s != [] {
      FilterKeepsAll(s[1..], keep);
    }
  }

  lemma {:induction false} FilterKeepsNone(s: seq<Pos>, keep: Pos -> bool)
    requires forall i :: 0 <= i < |s| ==> !keep(s[i])
    ensures Filter(s, keep) == []
  {
    if s != [] {
      FilterKeepsNone(s[1..], keep);
    }
  }

  /** Two tests that agree on every element of s keep the same elements. */
  lemma {:induction false} FilterCongruent(s: seq<Pos>, k1: Pos -> bool, k2: Pos -> bool)
    requires forall i :: 0 <= i < |s| ==> k1(s[i]) == k2(s[i])
    ensures Filter(s, k1) == Filter(s, k2)
  {
    if s != [] {
      FilterCongruent(s[1..], k1, k2);
    }
  }

  /** The kept tiles of column x from row y0 to row y1, collected row by row as a scan appends them. */
  function ColumnScan(x: int, y0: int, y1: int, keep: Pos -> bool): seq<Pos>
    decreases y1 - y0
  {
    if y1 <= y0 then []
    else ColumnScan(x, y0, y1 - 1, keep) + (if keep(Pos(x, y1 - 1)) then [Pos(x, y1 - 1)] else [])
  }

  /** The kept tiles of the rectangle [x0, x1) by [y0, y1), collected column by column. */
  function BlockScan(x0: int, x1: int, y0: int, y1: int, keep: Pos -> bool): seq<Pos>
    decreases x1 - x0
  {
    if x1 <= x0 then [] else BlockScan(x0, x1 - 1, y0, y1, keep) + ColumnScan(x1 - 1, y0, y1, keep)
  }

  lemma {:induction false} ColumnSnoc(x: int, y0: int, y1: int)
    requires y0 < y1
    ensures Column(x, y0, y1) == Column(x, y0, y1 - 1) + [Pos(x, y1 - 1)]
    decreases y1 - y0
  {
    if y0 < y1 - 1 {
      ColumnSnoc(x, y0 + 1, y1);
    }
  }

  lemma {:induction false} BlockSnoc(x0: int, x1: int, y0: int, y1: int)
    requires x0 < x1
    ensures Block(x0, x1, y0, y1) == Block(x0, x1 - 1, y0, y1) + Column(x1 - 1, y0, y1)
    decreases x1 - x0
  {
    if x0 < x1 - 1 {
      BlockSnoc(x0 + 1, x1, y0, y1);
    }
  }

  /** Scanning a column row by row keeps exactly the tiles the filter keeps, in the same order. */
  lemma {:induction false} ColumnScanFilter(x: int, y0: int, y1: int, keep: Pos -> bool)
    ensures ColumnScan(x, y0, y1, keep) == Filter(Column(x, y0, y1), keep)
    decreases y1 - y0
  {
    if y0 < y1 {
      ColumnScanFilter(x, y0, y1 - 1, keep);
      ColumnSnoc(x, y0, y1);
      FilterAppend(Column(x, y0, y1 - 1), [Pos(x, y1 - 1)], keep);
    }
  }

  /** Scanning a rectangle column by column keeps exactly the tiles the filter keeps, in the same order. */
  lemma {:induction false} BlockScanFilter(x0: int, x1: int, y0: int, y1: int, keep: Pos -> bool)
    ensures BlockScan(x0, x1, y0, y1, keep) == Filter(Block(x0, x1, y0, y1), keep)
    decreases x1 - x0
  {
    if x0 < x1 {
      BlockScanFilter(x0, x1 - 1, y0, y1, keep);
      ColumnScanFilter(x1 - 1, y0, y1, keep);
      BlockSnoc(x0, x1, y0, y1);
      FilterAppend(Block(x0, x1 - 1, y0, y1), Column(x1 - 1, y0, y1), keep);
    }
  }
}
