/** The game session: the mutable world of one playthrough (the tile grid,
    the lit mask and the player position) and the operations that change it
    in place: loading the level, recomputing the light, toggling the doors,
    moving, and resolving a click. */
module Session {
  import opened Tiles
  import opened Board
  import opened Lighting
  import opened Level
  import opened Rules

  class Game {
    var grid: array2<Tile>
    var lit: array2<bool>
    var pr: int   // player row
    var pc: int   // player column

    ghost var room: Grid   // the grid as a value

    /** The ghost `room` holds exactly the tiles of `grid`. */
    ghost predicate RoomMirrors()
      reads this`room, this`grid, grid
    {
      && |room| == grid.Length0 && Rectangular(room)
      && (|room| > 0 ==> |room[0]| == grid.Length1)
      && forall r, c :: 0 <= r < grid.Length0 && 0 <= c < grid.Length1 ==> room[r][c] == grid[r, c]
    }

    /** The lit mask has the grid's dimensions. */
    ghost predicate Shaped()
      reads this`room, this`grid, this`lit, grid
    {
      RoomMirrors() && lit.Length0 == grid.Length0 && lit.Length1 == grid.Length1
    }

    /** The lit mask is exactly the set of cells the lamps' light reaches. */
    ghost predicate LitMatches()
      reads this`room, this`grid, this`lit, grid, lit
      requires Shaped()
    {
      forall r, c :: 0 <= r < lit.Length0 && 0 <= c < lit.Length1 ==>
        (lit[r, c] <==> Reachable(room, Cell(r, c)))
    }

    /** The session invariant: a shaped mask that matches the grid, and the player on the board. */
    ghost predicate Valid()
      reads this, grid, lit
    {
      Shaped() && 0 <= pr < grid.Length0 && 0 <= pc < grid.Length1 && LitMatches()
    }

    /** The mask and the ghost set `s` hold the same cells. */
    ghost predicate Mirrors(s: set<Cell>)
      reads this`lit, lit
    {
      forall r, c :: 0 <= r < lit.Length0 && 0 <= c < lit.Length1 ==> (lit[r, c] <==> Cell(r, c) in s)
    }

    /** (r, c) lies on the board; the width is that of row 0. */
    predicate InBounds(r: int, c: int)
      reads this`grid
    {
      0 <= r < grid.Length0 && 0 <= c < grid.Length1
    }

    /** The bounds test on the array agrees with the one on the grid as a value. */
    lemma InBoundsMirrors(r: int, c: int)
      requires RoomMirrors()
      ensures InBounds(r, c) <==> Board.InBounds(room, Cell(r, c))
    {
    }

    /** Darken every cell. */
    method ClearLit()
      modifies lit
      ensures forall r, c :: 0 <= r < lit.Length0 && 0 <= c < lit.Length1 ==> !lit[r, c]
    {
      for r := 0 to lit.Length0
        invariant forall i, j :: 0 <= i < r && 0 <= j < lit.Length1 ==> !lit[i, j]
      {
        for c := 0 to lit.Length1
          invariant forall i, j :: 0 <= i < r && 0 <= j < lit.Length1 ==> !lit[i, j]
          invariant forall j :: 0 <= j < c ==> !lit[r, j]
        {
          lit[r, c] := false;
        }
      }
    }

    /** Light every lamp that is on and queue it: the seeds of the flood fill. */
    method SeedLamps() returns (q: seq<Cell>, ghost seeds: set<Cell>)
      requires Shaped()
      requires forall r, c :: 0 <= r < lit.Length0 && 0 <= c < lit.Length1 ==> !lit[r, c]
      modifies lit
      ensures Mirrors(seeds)
      ensures forall x :: x in seeds <==> Board.InBounds(room, x) && At(room, x) == LampOn
      ensures Logged(q, seeds) && Pending(q, q)
    {
      ghost var g := room;
      q, seeds := [], {};
      for r := 0 to grid.Length0
        invariant Mirrors(seeds)
        invariant forall x :: x in seeds <==> Board.InBounds(g, x) && At(g, x) == LampOn && x.row < r
        invariant Logged(q, seeds)
      {
        for c := 0 to grid.Length1
          invariant Mirrors(seeds)
          invariant forall x :: x in seeds <==>
            Board.InBounds(g, x) && At(g, x) == LampOn && (x.row < r || (x.row == r && x.col < c))
          invariant Logged(q, seeds)
        {
          if grid[r, c] == LampOn {
            LogGrows(q, seeds, Cell(r, c));
            lit[r, c] := true;
            q := q + [Cell(r, c)];
            seeds := seeds + {Cell(r, c)};
          }
        }
      }
    }

    /** One direction of the flood fill: light the neighbour of `cur` in
        direction `k` and queue it, unless it is off the board, already lit,
        or opaque. */
    method SpreadTo(cur: Cell, k: nat, q: seq<Cell>, ghost s: set<Cell>) returns (q': seq<Cell>, ghost s': set<Cell>)
      requires Shaped() && k < 4 && Mirrors(s)
      modifies lit
      ensures Mirrors(s')
      ensures var next := Step(cur, k);
        if Transparent(room, next) && next !in s
        then s' == s + {next} && q' == q + [next]
        else s' == s && q' == q
    {
      var next := Step(cur, k);
      q', s' := q, s;
      if !InBounds(next.row, next.col) {
        return;
      }
      if lit[next.row, next.col] {
        return;
      }
      if BlocksLight(grid[next.row, next.col]) {
        return;
      }
      lit[next.row, next.col] := true;
      q', s' := q + [next], s + {next};
    }

    /** Process one dequeued cell: spread the light to each of its four
        neighbours in turn. */
    method SpreadFrom(cur: Cell, q0: seq<Cell>, ghost s0: set<Cell>, ghost log0: seq<Cell>)
      returns (q: seq<Cell>, ghost s: set<Cell>, ghost log: seq<Cell>)
      requires Shaped() && Mirrors(s0) && s0 <= Cells(room) && Sound(room, s0)
      requires cur in s0 && Logged(log0, s0) && Pending(q0, log0)
      modifies lit
      ensures Mirrors(s) && Spreading(room, cur, 4, s0, q0, s, q)
      ensures Logged(log, s) && Pending(q, log)
      ensures Appended(q0, q, log0, log)
    {
      ghost var g := room;
      q, s, log := q0, s0, log0;
      for k := 0 to 4
        invariant Mirrors(s) && Spreading(g, cur, k, s0, q0, s, q)
        invariant Logged(log, s) && Pending(q, log)
        invariant Appended(q0, q, log0, log)
      {
        ghost var q1, s1 := q, s;
        q, s := SpreadTo(cur, k, q, s);
        SpreadingStep(g, cur, k, s0, q0, s1, q1, s, q);
        if s != s1 {
          LogGrows(log, s1, Step(cur, k));
          PendingGrows(q1, log, Step(cur, k));
          AppendedGrows(q0, q1, log0, log, Step(cur, k));
          log := log + [Step(cur, k)];
        }
      }
    }

    /** Drain the work queue: every queued cell spreads the light to its
        non-opaque 4-neighbours that are still dark, which are lit and queued
        in turn. */
    method Flood(q0: seq<Cell>, ghost s0: set<Cell>, ghost log0: seq<Cell>) returns (ghost s: set<Cell>, ghost log: seq<Cell>)
      requires Shaped() && Mirrors(s0) && Draining(room, s0, q0)
      requires Logged(log0, s0) && Pending(q0, log0)
      modifies lit
      ensures Mirrors(s)
      ensures forall x :: x in s <==> Reachable(room, x)
      ensures Logged(log, s) && log0 <= log
    {
      ghost var g := room;
      var q := q0;
      s, log := s0, log0;
      while q != []
        invariant Mirrors(s) && Draining(g, s, q)
        invariant Logged(log, s) && Pending(q, log) && log0 <= log
        decreases Cells(g) - s, |q|
      {
        ghost var waiting, settled := q, s;
        var cur := q[0];
        PendingTail(q, log);
        q := q[1..];
        q, s, log := SpreadFrom(cur, q, s, log);
        DrainingStep(g, settled, waiting, s, q);
      }
      assert room == g;
      Drained(g, s);
    }

    /** Recompute the lit mask from scratch: a multi-source breadth-first flood
        fill from every lamp that is on, spreading up, down, left and right,
        stopped by walls and locked doors. */
    method RecomputeLighting()
      requires Shaped()
      modifies lit
      ensures LitMatches()
      ensures forall x :: Board.InBounds(room, x) && At(room, x) == LampOn ==> lit[x.row, x.col]
      ensures forall x :: Board.InBounds(room, x) && BlocksLight(At(room, x)) ==> !lit[x.row, x.col]
    {
      ClearLit();
      var q;
      ghost var seeds;
      q, seeds := SeedLamps();
      ghost var g := room;
      forall x | x in seeds
        ensures Reachable(g, x)
      {
        LampIsLit(g, x);
      }
      ghost var s, log := Flood(q, seeds, q);
      forall x | Board.InBounds(g, x) && At(g, x) == LampOn
        ensures lit[x.row, x.col]
      {
        LampIsLit(g, x);
      }
      forall x | Board.InBounds(g, x) && BlocksLight(At(g, x))
        ensures !lit[x.row, x.col]
      {
        if lit[x.row, x.col] {
          LitIsTransparent(g, x);
        }
      }
    }

    /** Open every locked door and lock every open door, in place. */
    method ToggleDoors()
      requires Shaped()
      modifies this`room, grid
      ensures Shaped() && room == ToggledDoors(old(room))
    {
      ghost var g := room;
      for r := 0 to grid.Length0
        invariant forall i, j :: 0 <= i < grid.Length0 && 0 <= j < grid.Length1 ==>
          grid[i, j] == if i < r then ToggleDoor(g[i][j]) else g[i][j]
      {
        for c := 0 to grid.Length1
          invariant forall i, j :: 0 <= i < grid.Length0 && 0 <= j < grid.Length1 ==>
            grid[i, j] == if i < r || (i == r && j < c) then ToggleDoor(g[i][j]) else g[i][j]
        {
          if grid[r, c] == DoorLocked {
            grid[r, c] := DoorOpen;
          } else if grid[r, c] == DoorOpen {
            grid[r, c] := DoorLocked;
          }
        }
      }
      room := ToggledDoors(g);
      forall i, j | 0 <= i < grid.Length0 && 0 <= j < grid.Length1
        ensures room[i][j] == grid[i, j]
      {
        assert Board.InBounds(g, Cell(i, j));
      }
    }

    /** Attempt to step onto (nr, nc): nothing happens off the board or against
        a wall or locked door, a dark tile is refused with a warning, and
        otherwise the player moves there, completing the room on the exit. */
    method TryMove(nr: int, nc: int) returns (s: Status)
      requires Shaped()
      modifies this`pr, this`pc
      ensures !InBounds(nr, nc) ==> s == Silent
      ensures InBounds(nr, nc) ==> s == MoveOutcome(grid[nr, nc], lit[nr, nc])
      ensures if Advances(s) then pr == nr && pc == nc else pr == old(pr) && pc == old(pc)
    {
      if !InBounds(nr, nc) {
        return Silent;
      }
      var t := grid[nr, nc];
      if BlocksMovement(t) {
        return Silent;
      }
      if !lit[nr, nc] {
        return TileDark;
      }
      pr, pc := nr, nc;
      if grid[pr, pc] == Exit {
        s := RoomComplete;
      } else {
        s := Moved;
      }
    }

    /** Resolve a click on (r, c): interact with a lamp or switch on or next to
        the player first, and otherwise try to step onto a 4-neighbour. */
    method HandleClick(r: int, c: int) returns (s: Status)
      requires Valid() && InBounds(r, c)
      modifies this`pr, this`pc, this`room, grid, lit
      ensures Valid()
      ensures var a := Resolve(At(old(room), Cell(r, c)), Cell(old(pr), old(pc)), Cell(r, c));
        && room == Apply(old(room), a, Cell(r, c))
        && (a == LightLamp ==> s == LampTurnedOn)
        && (a == DouseLamp ==> s == LampTurnedOff)
        && (a == FlipSwitch ==> s == DoorsToggled)
        && (a == Walk ==> s == MoveOutcome(At(old(room), Cell(r, c)), old(lit[r, c])))
        && (a == Nothing ==> s == Silent)
        && (!IsInteraction(a) ==> unchanged(lit))
      ensures if Advances(s) then pr == r && pc == c else pr == old(pr) && pc == old(pc)
      ensures Advances(s) ==> Reachable(room, Cell(pr, pc))
      ensures At(old(room), Cell(old(pr), old(pc))) != Wall ==> At(room, Cell(pr, pc)) != Wall
    {
      ghost var a := Resolve(grid[r, c], Cell(pr, pc), Cell(r, c));
      assert At(room, Cell(r, c)) == grid[r, c];
      if IsNeighborOrSelf(r, c, pr, pc) && Interactive(grid[r, c]) {
        s := Interact(r, c);
      } else if Is4Neighbor(r, c, pr, pc) {
        assert a == Walk;
        s := TryMove(r, c);
      } else {
        assert a == Nothing;
        s := Silent;
      }
    }

    /** The interaction half of a click: light an unlit lamp, put out a lit
        one, or flip a switch, and recompute the light. */
    method Interact(r: int, c: int) returns (s: Status)
      requires Valid() && InBounds(r, c) && Interactive(grid[r, c])
      modifies this`room, grid, lit
      ensures Valid()
      ensures old(grid[r, c]) == LampOff ==> room == WithTile(old(room), Cell(r, c), LampOn) && s == LampTurnedOn
      ensures old(grid[r, c]) == LampOn ==> room == WithTile(old(room), Cell(r, c), LampOff) && s == LampTurnedOff
      ensures old(grid[r, c]) == Switch ==> room == ToggledDoors(old(room)) && s == DoorsToggled
    {
      var t := grid[r, c];
      if t == LampOff {
        SetTile(r, c, LampOn);
        s := LampTurnedOn;
      } else if t == LampOn {
        SetTile(r, c, LampOff);
        s := LampTurnedOff;
      } else {
        ToggleDoors();
        s := DoorsToggled;
      }
      RecomputeLighting();
    }

    /** Write one tile of the grid. */
    method SetTile(r: int, c: int, t: Tile)
      requires Shaped() && InBounds(r, c)
      modifies this`room, grid
      ensures Shaped() && room == WithTile(old(room), Cell(r, c), t)
    {
      grid[r, c] := t;
      room := WithTile(room, Cell(r, c), t);
      assert RoomMirrors();
    }

    /** Load a level: fresh grid and mask sized by the level's row count and
        first row's width, every cell dark, each character stored as its tile,
        and each player marker turned into floor and recorded as the player's
        position, so that the last marker in row-major order wins. */
    method LoadLevel(level: seq<string>)
      requires Loadable(level)
      modifies this
      ensures fresh(grid) && fresh(lit)
      ensures Shaped() && room == LoadedGrid(level)
      ensures forall r, c :: 0 <= r < lit.Length0 && 0 <= c < lit.Length1 ==> !lit[r, c]
      ensures Cell(pr, pc) == PlayerStart(level).GetOr(Cell(old(pr), old(pc)))
    {
      var rows := |level|;
      var cols := |level[0]|;
      var tiles := new Tile[rows, cols];
      grid := tiles;
      ghost var start := Cell(pr, pc);
      for r := 0 to rows
        modifies this`pr, this`pc, tiles
        invariant forall i, j :: 0 <= i < r && 0 <= j < cols ==> tiles[i, j] == LoadedTile(level[i][j])
        invariant Cell(pr, pc) == LastMarker(level, cols, r).GetOr(start)
      {
        LoadRow(level, r, start);
      }
      lit := new bool[rows, cols]((i, j) => false);
      room := LoadedGrid(level);
      forall i, j | 0 <= i < rows && 0 <= j < cols
        ensures room[i][j] == grid[i, j]
      {
        assert Board.InBounds(room, Cell(i, j));
      }
    }

    /** One row of `LoadLevel`: store the row's tiles and record every player
        marker in it, left to right. */
    method LoadRow(level: seq<string>, r: nat, ghost start: Cell)
      requires Loadable(level) && r < |level|
      requires grid.Length0 == |level| && grid.Length1 == |level[0]|
      requires Cell(pr, pc) == LastMarker(level, |level[0]|, r).GetOr(start)
      modifies this`pr, this`pc, grid
      ensures forall i, j :: 0 <= i < grid.Length0 && 0 <= j < grid.Length1 && i != r ==> grid[i, j] == old(grid[i, j])
      ensures forall j :: 0 <= j < grid.Length1 ==> grid[r, j] == LoadedTile(level[r][j])
      ensures Cell(pr, pc) == LastMarker(level, |level[0]|, r + 1).GetOr(start)
    {
      var cols := |level[0]|;
      for c := 0 to cols
        invariant forall i, j :: 0 <= i < grid.Length0 && 0 <= j < grid.Length1 && i != r ==> grid[i, j] == old(grid[i, j])
        invariant forall j :: 0 <= j < c ==> grid[r, j] == LoadedTile(level[r][j])
        invariant Cell(pr, pc) == LatestMarker(level, cols, r, c).GetOr(start)
      {
        LatestMarkerStep(level, cols, r, c);
        var ch := level[r][c];
        if ch == '@' {
          pr, pc := r, c;
          grid[r, c] := Floor;
        } else {
          grid[r, c] := Parse(ch);
        }
      }
    }

    /** Start (or restart) the game: load the built-in level and light it.  The
        player starts in the top-left corner and the lamp two cells to its right
        is already on. */
    method ResetGame()
      modifies this
      ensures Valid() && fresh(grid) && fresh(lit)
      ensures room == LoadedGrid(Level1) && pr == 0 && pc == 0
      ensures At(room, Cell(pr, pc)) == Floor && lit[0, 2]
    {
      Level1Start();
      LoadLevel(Level1);
      Level1Tiles();
      RecomputeLighting();
      LampIsLit(room, Cell(0, 2));
    }

    /** A new session, already reset.  The arrays allocated first are only
        placeholders; the reset replaces them. */
    constructor()
      ensures Valid() && fresh(grid) && fresh(lit) && room == LoadedGrid(Level1) && pr == 0 && pc == 0
      ensures At(room, Cell(pr, pc)) == Floor && lit[0, 2]
    {
      grid := new Tile[0, 0];
      lit := new bool[0, 0];
      pr, pc := 0, 0;
      room := [];
      new;
      ResetGame();
    }
  }
}
