/** The fixed level text and what loading it means: each character becomes a
    tile, the player marker `@` becomes floor, and the last marker in
    row-major order gives the player's start. */
module Level {
  import opened Tiles
  import opened Board

  datatype Option<T> = None | Some(value: T)
  {
    /** The value, or `default` when there is none. */
    function GetOr(default: T): T {
      if Some? then value else default
    }
  }

  /** The game's only level. */
  const Level1: seq<string> := [
    "@.*###########",
    "#.....D..L..##",
    "#.##..##..#.D#",
    "#...#.L....#.#",
    "#LSD.#...#.#.E",
    "#.......#.#..#",
    "#.##L..#L#D..#",
    "#D.#.#.....L.#",
    "##############"
  ]

  /** What the loader needs: a first row, and no row shorter than it. */
  predicate Loadable(level: seq<string>) {
    |level| > 0 && forall r :: 0 <= r < |level| ==> |level[r]| >= |level[0]|
  }

  /** The tile a level character leaves on the grid. */
  function LoadedTile(ch: char): (t: Tile)
    ensures Symbol(t) == if ch == '@' then '.' else ch
  {
    if ch == '@' then Floor else Parse(ch)
  }

  /** A loaded tile is in its one canonical form, and it is `Other` exactly
      when the character is neither a tile symbol nor the player marker. */
  lemma LoadedCanonical(ch: char)
    ensures Canonical(LoadedTile(ch))
    ensures LoadedTile(ch).Other? <==> ch != '@' && ch !in Vocabulary
  {
    ParseCanonical(ch);
  }

  /** The grid a level loads into: as many rows as the level, as many columns as its first row. */
  function LoadedGrid(level: seq<string>): (g: Grid)
    requires Loadable(level)
    ensures |g| == |level| && Rectangular(g) && |g[0]| == |level[0]|
    ensures forall x :: InBounds(g, x) ==> At(g, x) == LoadedTile(level[x.row][x.col])
  {
    seq(|level|, r requires 0 <= r < |level| =>
      seq(|level[0]|, c requires 0 <= c < |level[0]| => LoadedTile(level[r][c])))
  }

  /** Row-major order: `a` is scanned strictly before `b`. */
  predicate Before(a: Cell, b: Cell) {
    a.row < b.row || (a.row == b.row && a.col < b.col)
  }

  /** The last column before `n` in the row that holds the player marker. */
  function LastInRow(row: string, n: nat): (j: Option<nat>)
    requires n <= |row|
    ensures j.Some? ==> j.value < n && row[j.value] == '@'
    ensures j.Some? ==> forall i :: j.value < i < n ==> row[i] != '@'
    ensures j.None? ==> forall i :: 0 <= i < n ==> row[i] != '@'
  {
    if n == 0 then None
    else if row[n - 1] == '@' then Some(n - 1)
    else LastInRow(row, n - 1)
  }

  /** The last player marker, in row-major order, among the first `cols` columns of the first `n` rows. */
  function LastMarker(level: seq<string>, cols: nat, n: nat): (x: Option<Cell>)
    requires n <= |level| && forall r :: 0 <= r < |level| ==> cols <= |level[r]|
    ensures x.Some? ==> 0 <= x.value.row < n && 0 <= x.value.col < cols
    ensures x.Some? ==> level[x.value.row][x.value.col] == '@'
  {
    if n == 0 then None
    else
      match LastInRow(level[n - 1], cols)
      case Some(c) => Some(Cell(n - 1, c))
      case None => LastMarker(level, cols, n - 1)
  }

  /** No marker follows the one `LastMarker` finds, and it finds none only when there is none. */
  lemma {:induction false} LastMarkerIsLast(level: seq<string>, cols: nat, n: nat)
    requires n <= |level| && forall r :: 0 <= r < |level| ==> cols <= |level[r]|
    ensures var x := LastMarker(level, cols, n);
      x.Some? ==> forall r, c :: 0 <= r < n && 0 <= c < cols && Before(x.value, Cell(r, c)) ==> level[r][c] != '@'
    ensures LastMarker(level, cols, n).None? <==> forall r, c :: 0 <= r < n && 0 <= c < cols ==> level[r][c] != '@'
    decreases n
  {
    if n > 0 && LastInRow(level[n - 1], cols).None? {
      LastMarkerIsLast(level, cols, n - 1);
    }
  }

  /** The last marker scanned once row `r` has been read up to column `c`. */
  function LatestMarker(level: seq<string>, cols: nat, r: nat, c: nat): (x: Option<Cell>)
    requires r < |level| && c <= cols && forall i :: 0 <= i < |level| ==> cols <= |level[i]|
    ensures c == 0 ==> x == LastMarker(level, cols, r)
    ensures c == cols ==> x == LastMarker(level, cols, r + 1)
  {
    match LastInRow(level[r], c)
    case Some(j) => Some(Cell(r, j))
    case None => LastMarker(level, cols, r)
  }

  /** Scanning one more character: a marker there becomes the latest one. */
  lemma LatestMarkerStep(level: seq<string>, cols: nat, r: nat, c: nat)
    requires r < |level| && c < cols && forall i :: 0 <= i < |level| ==> cols <= |level[i]|
    ensures LatestMarker(level, cols, r, c + 1) ==
      if level[r][c] == '@' then Some(Cell(r, c)) else LatestMarker(level, cols, r, c)
  {
  }

  /** The player's start after loading a whole level, if it has a marker at all. */
  function PlayerStart(level: seq<string>): (x: Option<Cell>)
    requires Loadable(level)
    ensures x.Some? ==> InBounds(LoadedGrid(level), x.value)
    ensures x.Some? ==> level[x.value.row][x.value.col] == '@'
  {
    LastMarker(level, |level[0]|, |level|)
  }

  /** The start is the last marker in row-major order, and there is none only in a level without markers. */
  lemma PlayerStartIsLast(level: seq<string>)
    requires Loadable(level)
    ensures var x := PlayerStart(level);
      x.Some? ==> forall r, c :: 0 <= r < |level| && 0 <= c < |level[0]| && Before(x.value, Cell(r, c)) ==> level[r][c] != '@'
    ensures PlayerStart(level).None? <==> forall r, c :: 0 <= r < |level| && 0 <= c < |level[0]| ==> level[r][c] != '@'
  {
    LastMarkerIsLast(level, |level[0]|, |level|);
  }

  /** A level whose only marker is its top-left character starts the player in the top-left corner. */
  lemma StartsTopLeft(level: seq<string>)
    requires Loadable(level) && |level[0]| > 0 && level[0][0] == '@'
    requires '@' !in level[0][1..]
    requires forall r :: 1 <= r < |level| ==> '@' !in level[r]
    ensures PlayerStart(level) == Some(Cell(0, 0))
  {
    PlayerStartIsLast(level);
  }

  /** The built-in level is 9 rows of 14 characters. */
  lemma Level1Shape()
    ensures Loadable(Level1) && |Level1| == 9 && |Level1[0]| == 14
  {
  }

  /** The built-in level holds exactly one player marker, its first character. */
  lemma Level1Marker()
    ensures |Level1| == 9 && |Level1[0]| == 14
    ensures Level1[0][0] == '@' && '@' !in Level1[0][1..]
    ensures forall r :: 1 <= r < |Level1| ==> '@' !in Level1[r]
  {
    assert '@' !in Level1[1] && '@' !in Level1[2] && '@' !in Level1[3] && '@' !in Level1[4];
    assert '@' !in Level1[5] && '@' !in Level1[6] && '@' !in Level1[7] && '@' !in Level1[8];
  }

  /** On the built-in level the player starts in the top-left corner. */
  lemma Level1Start()
    ensures Loadable(Level1) && |Level1| == 9 && |Level1[0]| == 14
    ensures PlayerStart(Level1) == Some(Cell(0, 0))
  {
    Level1Shape();
    Level1Marker();
    StartsTopLeft(Level1);
  }

  /** On the built-in level the player's cell (0, 0) is floor and cell (0, 2) holds a lamp that is on. */
  lemma Level1Tiles()
    ensures Loadable(Level1) && |Level1| == 9 && |Level1[0]| == 14
    ensures At(LoadedGrid(Level1), Cell(0, 0)) == Floor
    ensures At(LoadedGrid(Level1), Cell(0, 2)) == LampOn
  {
    Level1Shape();
    assert Level1[0][0] == '@';
    assert Level1[0][2] == '*';
  }
}
