/** The room as a value: a rectangular grid of tiles, its cells, the bounds
    test, the two neighbourhoods the click rules use, the four light
    directions, and the two ways an interaction rewrites the grid. */
module Board {
  import opened Tiles

  /** A (row, column) position on the grid. */
  datatype Cell = Cell(row: int, col: int)

  type Grid = seq<seq<Tile>>

  /** Every row has the width of row 0; the game always reads the width from row 0. */
  predicate Rectangular(g: Grid) {
    forall r :: 0 <= r < |g| ==> |g[r]| == |g[0]|
  }

  /** The position is on the grid, with the width taken from row 0. */
  predicate InBounds(g: Grid, x: Cell) {
    0 <= x.row < |g| && 0 <= x.col < |g[0]|
  }

  /** All the cells of the grid. */
  function Cells(g: Grid): (s: set<Cell>)
    ensures forall x :: x in s <==> InBounds(g, x)
  {
    var s := set r, c | 0 <= r < |g| && 0 <= c < (if |g| == 0 then 0 else |g[0]|) :: Cell(r, c);
    assert forall x :: InBounds(g, x) ==> Cell(x.row, x.col) in s;
    s
  }

  function At(g: Grid, x: Cell): Tile
    requires Rectangular(g) && InBounds(g, x)
  {
    g[x.row][x.col]
  }

  function Abs(n: int): (m: nat)
    ensures m == n || m == -n
  {
    if n < 0 then -n else n
  }

  /** (r, c) is at Manhattan distance exactly 1 from (pr, pc). */
  predicate Is4Neighbor(r: int, c: int, pr: int, pc: int)
    ensures Is4Neighbor(r, c, pr, pc) <==>
      (r == pr && (c == pc - 1 || c == pc + 1)) || (c == pc && (r == pr - 1 || r == pr + 1))
  {
    Abs(r - pr) + Abs(c - pc) == 1
  }

  /** (r, c) is within Chebyshev distance 1 of (pr, pc): the player's own cell or one of its eight surrounding cells. */
  predicate IsNeighborOrSelf(r: int, c: int, pr: int, pc: int)
    ensures IsNeighborOrSelf(r, c, pr, pc) <==> pr - 1 <= r <= pr + 1 && pc - 1 <= c <= pc + 1
    ensures Is4Neighbor(r, c, pr, pc) ==> IsNeighborOrSelf(r, c, pr, pc)
    ensures r == pr && c == pc ==> IsNeighborOrSelf(r, c, pr, pc) && !Is4Neighbor(r, c, pr, pc)
  {
    Abs(r - pr) <= 1 && Abs(c - pc) <= 1
  }

  predicate Adjacent(a: Cell, b: Cell) {
    Is4Neighbor(b.row, b.col, a.row, a.col)
  }

  /** The light spreads up, down, left and right, in this order. */
  const Dirs: seq<(int, int)> := [(-1, 0), (1, 0), (0, -1), (0, 1)]

  function Step(x: Cell, k: nat): (y: Cell)
    requires k < 4
    ensures Adjacent(x, y)
  {
    Cell(x.row + Dirs[k].0, x.col + Dirs[k].1)
  }

  /** The direction that leads from a cell to a given 4-neighbour of it. */
  function DirectionTo(a: Cell, b: Cell): (k: nat)
    requires Adjacent(a, b)
    ensures k < 4 && Step(a, k) == b
  {
    if b.row == a.row - 1 then 0
    else if b.row == a.row + 1 then 1
    else if b.col == a.col - 1 then 2
    else 3
  }

  /** The grid with one cell replaced. */
  function WithTile(g: Grid, x: Cell, t: Tile): (h: Grid)
    requires Rectangular(g) && InBounds(g, x)
    ensures |h| == |g| && Rectangular(h) && |h[0]| == |g[0]|
    ensures At(h, x) == t
    ensures forall y :: InBounds(g, y) && y != x ==> At(h, y) == At(g, y)
  {
    g[x.row := g[x.row][x.col := t]]
  }

  /** Every locked door opened and every open door locked, across the whole grid. */
  function ToggledDoors(g: Grid): (h: Grid)
    requires Rectangular(g)
    ensures |h| == |g| && Rectangular(h) && (|g| > 0 ==> |h[0]| == |g[0]|)
    ensures forall x :: InBounds(g, x) ==> At(h, x) == ToggleDoor(At(g, x))
  {
    seq(|g|, r requires 0 <= r < |g| => seq(|g[r]|, c requires 0 <= c < |g[r]| => ToggleDoor(g[r][c])))
  }

  /** Adding members to a subset of `all` leaves fewer of `all` outside it. */
  lemma Shrinks<T>(all: set<T>, s0: set<T>, s: set<T>)
    requires s0 <= s <= all && s != s0
    ensures all - s < all - s0
  {
    var x :| x in s && x !in s0;
    assert x in all - s0;
  }

  /** Two grids of the same shape that agree on every cell are equal. */
  lemma {:induction false} SameCells(g: Grid, h: Grid)
    requires Rectangular(g) && Rectangular(h) && |g| == |h|
    requires |g| > 0 ==> |g[0]| == |h[0]|
    requires forall x :: InBounds(g, x) ==> At(g, x) == At(h, x)
    ensures g == h
  {
    forall r | 0 <= r < |g|
      ensures g[r] == h[r]
    {
      forall c | 0 <= c < |g[r]|
        ensures g[r][c] == h[r][c]
      {
        assert InBounds(g, Cell(r, c));
      }
    }
  }

  /** Toggling the doors twice restores the grid, and it touches nothing but doors. */
  lemma {:induction false} ToggleDoorsInvolution(g: Grid)
    requires Rectangular(g)
    ensures ToggledDoors(ToggledDoors(g)) == g
    ensures forall x :: InBounds(g, x) && At(g, x) != DoorLocked && At(g, x) != DoorOpen ==>
      At(ToggledDoors(g), x) == At(g, x)
  {
    var h := ToggledDoors(ToggledDoors(g));
    forall x | InBounds(g, x)
      ensures At(h, x) == At(g, x)
    {
      assert InBounds(ToggledDoors(g), x);
    }
    SameCells(h, g);
  }
}
