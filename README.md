# Escape room puzzle engine, modelled in Dafny

The game is a grid escape room. Each cell holds a tile: a wall `#`, floor
`.`, the exit `E`, a lamp that is off `L` or on `*`, a switch `S`, a locked
door `D` or an open door `/`. The player stands on one cell. Light spreads
from every lamp that is on, up, down, left and right. Walls and locked
doors stop it. The player may only step onto a cell that is lit and is not
a wall or a locked door.

A click on a lamp or switch on or next to the player interacts with it:
- a lamp that is off goes on, and a lamp that is on goes off;
- a switch swaps every locked door with every open door;
- afterwards the light is recomputed from scratch.

Any other click on an orthogonal neighbour is a move attempt.

The model has six modules:

- **Tiles** (`tiles.dfy`): the tile vocabulary, its level characters, and the blocking rules.
- **Board** (`board.dfy`): the grid as a value, the bounds test, the two neighbourhoods, the four light directions, and the two rewrites an interaction makes.
- **Lighting** (`lighting.dfy`): what the light computation means, stated without the algorithm. A cell is lit exactly when a chain of 4-adjacent, non-opaque cells joins it to a lamp that is on. This module also holds the lemmas the flood fill's proof rests on.
- **Level** (`level.dfy`): the built-in level text and what loading it means.
- **Rules** (`rules.dfy`): how a click resolves (interaction first, then movement), what a move attempt reports, and what an interaction does to the grid.
- **Session** (`session.dfy`): the class `Game`. It holds the mutable state:
  - `grid`: an `array2<Tile>`;
  - `lit`: the lit mask, an `array2<bool>`;
  - the player position `pr`, `pc`.

  Its methods update that state in place, the way the game does.
  - A ghost field `room` mirrors `grid` as a value.
  - `Valid()` is the session invariant: the mask has the grid's shape, the player is on the board, and `lit` holds exactly the cells reachable by light.

The lighting pass is the game's breadth-first flood fill over a work queue, proved against `Reachable`. A ghost set mirrors the mask. The loop keeps these invariants:
- every member is lit;
- every lamp is a member;
- every member not still queued has already spread its light.

Termination is by the cells not yet lit, then the queue length. `SpreadTo` queues a cell only when it is not yet lit, and lights it in the same step. A ghost log records every queued cell in order. The proof keeps two facts about it:
- the log lists each lit cell exactly once;
- the queue is always the log's latest entries.

So when the fill ends, every lit cell has been queued exactly once.

A click keeps the player off the walls: a player who does not stand on a wall before a click does not stand on one after it.

## Model

| member | source | states |
|---|---|---|
| Tiles.Parse | src/main/java/game/EscapeGame2DFX.java:37-44 | every level character becomes a tile whose symbol is that character, so the copy the loader makes loses nothing |
| Tiles.ParseCanonical | src/main/java/game/EscapeGame2DFX.java:37-44 | a character parses to one of the eight named tiles exactly when it is one of the eight tile symbols |
| Tiles.ParseSymbol | src/main/java/game/EscapeGame2DFX.java:37-44 | parsing the symbol of a named tile gives the same tile back |
| Tiles.BlocksMovement | src/main/java/game/EscapeGame2DFX.java:347-349 | walls and locked doors, and nothing else, stop the player |
| Tiles.Interactive | src/main/java/game/EscapeGame2DFX.java:256-270 | the tiles a click can act on: a lamp that is off, a lamp that is on, and a switch |
| Tiles.BlockingSymbols | src/main/java/game/EscapeGame2DFX.java:347-349 | of all characters, exactly `#` and `D` stop the player and stop the light |
| Tiles.BlocksLight | src/main/java/game/EscapeGame2DFX.java:351-353 | light is stopped by exactly the tiles that stop movement |
| Tiles.ToggleDoor | src/main/java/game/EscapeGame2DFX.java:340-343 | a locked door becomes open, an open door becomes locked, every other tile is kept |
| Board.Cells | src/main/java/game/EscapeGame2DFX.java:355-357 | a cell is on the board exactly when its row is below the row count and its column below the width of row 0 |
| Board.Is4Neighbor | src/main/java/game/EscapeGame2DFX.java:359-361 | Manhattan distance 1 means one of the four orthogonal neighbours |
| Board.IsNeighborOrSelf | src/main/java/game/EscapeGame2DFX.java:363-365 | Chebyshev distance at most 1 means the 3x3 block around the player; it contains every 4-neighbour and the player's own cell |
| Board.Step | src/main/java/game/EscapeGame2DFX.java:325-327 | each of the four light directions leads to a 4-neighbour |
| Board.DirectionTo | src/main/java/game/EscapeGame2DFX.java:325-327 | every 4-neighbour is reached by one of the four directions, so the direction list misses none |
| Board.WithTile | src/main/java/game/EscapeGame2DFX.java:257 | writing one tile changes that cell and no other, and keeps the grid's shape |
| Board.ToggledDoors | src/main/java/game/EscapeGame2DFX.java:338-345 | the whole-grid door toggle applies the per-cell swap to every cell and keeps the shape |
| Board.ToggleDoorsInvolution | src/main/java/game/EscapeGame2DFX.java:338-345 | toggling twice restores the grid, and a toggle changes only doors |
| Lighting.LampIsLit | src/main/java/game/EscapeGame2DFX.java:311-319 | every lamp that is on is lit |
| Lighting.LightSpreads | src/main/java/game/EscapeGame2DFX.java:326-334 | light passes from a lit cell into any non-opaque 4-neighbour |
| Lighting.LitIsTransparent | src/main/java/game/EscapeGame2DFX.java:330 | a lit cell is on the board and is neither a wall nor a locked door |
| Lighting.ClosedHoldsPathEnd | src/main/java/game/EscapeGame2DFX.java:321-335 | a set that holds every lamp and cannot spread further holds the end of every light path (induction on the path) |
| Lighting.ClosedHoldsReachable | src/main/java/game/EscapeGame2DFX.java:321-335 | the lit cells are the least set that holds every lamp and is closed under spreading |
| Lighting.SpreadingStep | src/main/java/game/EscapeGame2DFX.java:327-333 | one direction of the flood fill keeps the lit set sound and on the board, and queues exactly what it newly lights |
| Lighting.LogGrows | src/main/java/game/EscapeGame2DFX.java:330-332 | queuing a cell that is still dark, and lighting it, keeps the log free of repeats and equal to the lit set |
| Lighting.PendingGrows | src/main/java/game/EscapeGame2DFX.java:332 | a queued cell is appended to the log and to the queue alike, so the queue stays the log's latest entries |
| Lighting.AppendedGrows | src/main/java/game/EscapeGame2DFX.java:332 | a push appends the same cell to the queue and to the log, so the log's growth is exactly what was queued |
| Lighting.DrainingStep | src/main/java/game/EscapeGame2DFX.java:321-335 | dequeuing a cell and spreading from it keeps the flood invariant, and either lights a new cell or shortens the queue (termination) |
| Lighting.Drained | src/main/java/game/EscapeGame2DFX.java:321 | when the queue is empty the lit set is exactly the set of reachable cells |
| Lighting.ReachableMonotone | src/main/java/game/EscapeGame2DFX.java:306-336 | more transparent cells and more lamps on never darken a cell |
| Lighting.LampOnNeverDarkens | src/main/java/game/EscapeGame2DFX.java:256-258 | turning a lamp on leaves every lit cell lit |
| Lighting.LampOffNeverBrightens | src/main/java/game/EscapeGame2DFX.java:263-265 | turning a lamp off lights no new cell |
| Level.Level1Shape | src/main/java/game/EscapeGame2DFX.java:25-35 | the built-in level is 9 rows of 14 characters and is loadable |
| Level.Level1Marker | src/main/java/game/EscapeGame2DFX.java:25-35 | the built-in level holds exactly one player marker, its first character |
| Level.Level1Start | src/main/java/game/EscapeGame2DFX.java:25-35 | on the built-in level the player starts at (0, 0) |
| Level.Level1Tiles | src/main/java/game/EscapeGame2DFX.java:25-35 | on the built-in level the start cell loads as floor and (0, 2) is a lamp that is on |
| Level.LoadedCanonical | src/main/java/game/EscapeGame2DFX.java:222-228 | a loaded tile is in canonical form; it is an unknown tile exactly when its character is neither a tile symbol nor the player marker |
| Level.LoadedTile | src/main/java/game/EscapeGame2DFX.java:222-228 | a loaded cell stands for its level character, except that the player marker becomes floor |
| Level.LoadedGrid | src/main/java/game/EscapeGame2DFX.java:214-231 | the loaded grid has the level's row count and row 0's width, and every cell holds the loaded tile of its character |
| Level.LastInRow | src/main/java/game/EscapeGame2DFX.java:221-229 | the last marker column in a row prefix, with no marker after it, or none at all |
| Level.LastMarker | src/main/java/game/EscapeGame2DFX.java:220-230 | the found marker lies in the scanned block and is a marker |
| Level.LastMarkerIsLast | src/main/java/game/EscapeGame2DFX.java:220-230 | no marker follows the found one in row-major order, and none is found only when the block has none (induction on rows) |
| Level.PlayerStart | src/main/java/game/EscapeGame2DFX.java:214-231 | the start, when there is one, is an on-board cell holding a marker |
| Level.PlayerStartIsLast | src/main/java/game/EscapeGame2DFX.java:214-231 | the start is the last marker in row-major order, and there is none only for a level without markers |
| Level.StartsTopLeft | src/main/java/game/EscapeGame2DFX.java:214-231 | a level whose only marker is its first character starts the player at (0, 0) |
| Rules.Resolve | src/main/java/game/EscapeGame2DFX.java:252-284 | a click is an interaction exactly when the target is on or next to the player and is a lamp or switch; otherwise it is a move exactly when the target is a 4-neighbour; the player's own cell is never a move; a far click does nothing |
| Rules.MoveOutcome | src/main/java/game/EscapeGame2DFX.java:286-304 | a move succeeds exactly onto a lit, non-blocking tile; it completes the room exactly on a lit exit; a dark passable tile gets its own warning; a blocking tile is refused silently |
| Rules.ApplyEffect | src/main/java/game/EscapeGame2DFX.java:254-276 | cell by cell: lighting or dousing writes the clicked cell and no other; a switch changes only doors, each locked door to open and each open door to locked; a walk or an ignored click changes no cell |
| Session.Game.InBoundsMirrors | src/main/java/game/EscapeGame2DFX.java:355-357 | the bounds test on the board array agrees with the bounds of the grid value |
| Session.Game.SetTile | src/main/java/game/EscapeGame2DFX.java:257 | the one clicked cell takes the new tile, every other cell is kept, and the board keeps its shape |
| Session.Game.ClearLit | src/main/java/game/EscapeGame2DFX.java:307 | every cell of the mask is dark afterwards |
| Session.Game.SeedLamps | src/main/java/game/EscapeGame2DFX.java:311-319 | the lamps that are on are lit and queued, and nothing else; each is queued once |
| Session.Game.SpreadTo | src/main/java/game/EscapeGame2DFX.java:327-333 | a neighbour is lit and queued exactly when it is on the board, lets light through and is still dark |
| Session.Game.SpreadFrom | src/main/java/game/EscapeGame2DFX.java:325-334 | after the four directions, every non-opaque neighbour of the dequeued cell is lit; the queue is only appended to, and the log grows by exactly the appended cells |
| Session.Game.Flood | src/main/java/game/EscapeGame2DFX.java:321-335 | when the queue runs dry the mask holds exactly the reachable cells, and the enqueue log extends the one it started from and lists each of them exactly once |
| Session.Game.RecomputeLighting | src/main/java/game/EscapeGame2DFX.java:306-336 | the mask equals reachability; every lamp that is on is lit; no wall or locked door is lit |
| Session.Game.ToggleDoors | src/main/java/game/EscapeGame2DFX.java:338-345 | the grid becomes its door-toggled image, in place |
| Session.Game.TryMove | src/main/java/game/EscapeGame2DFX.java:286-304 | off the board nothing happens; on the board the report is the move outcome of the tile and its light; the player lands on the target exactly when the move succeeds |
| Session.Game.HandleClick | src/main/java/game/EscapeGame2DFX.java:252-284 | keeps the session invariant. The grid becomes the resolved action applied to it, and each interaction gets its report. A move gets the move outcome. An ignored click changes nothing. A successful move lands on a reachable cell. A player off the walls stays off the walls. |
| Session.Game.Interact | src/main/java/game/EscapeGame2DFX.java:254-276 | keeps the session invariant; a lamp off goes on, a lamp on goes off, a switch toggles every door, each with its report |
| Session.Game.LoadLevel | src/main/java/game/EscapeGame2DFX.java:214-231 | fresh grid and mask of the level's size, every cell dark, the grid equal to the loaded level, and the player at the last marker, or left where it was if the level has none |
| Session.Game.LoadRow | src/main/java/game/EscapeGame2DFX.java:221-229 | one row is stored and its markers scanned left to right; other rows are untouched |
| Session.Game.ResetGame | src/main/java/game/EscapeGame2DFX.java:203-212 | a valid session on the built-in level: the player at (0, 0) on floor, and the lamp at (0, 2) lit |
| Session.Game.constructor | src/main/java/game/EscapeGame2DFX.java:203-212 | a new session is the reset session |

## Left out

- The JavaFX user interface is not modelled: scenes, menus, images, tile drawing, `refresh` and `buildBoard`.
- The mouse-button filter is not modelled. Only primary-button clicks reach the click handler.
- Status texts are the `Status` datatype. `Silent` stands for a call that leaves the status line as it was.
- Session.Game.HandleClick: requires the clicked cell to be on the board. The game only sends clicks from its own board cells, and an off-board target next to the player would make the source read outside the grid.
- Session.Game.LoadLevel: requires a non-empty level with no row shorter than row 0. With a shorter row the source reads past the row's end, and with no rows it reads a missing first row. Characters beyond row 0's width are ignored, as in the source.
- Session.Game.LoadLevel: a level without a player marker leaves the player where it was, as the source does. The position may then lie off the new board. The invariant `Valid` is therefore stated only after `ResetGame`, which loads the built-in level.
- Level characters are Unicode scalar values. Java's `charAt` reads UTF-16 code units, so a level row holding a character outside the Basic Multilingual Plane would be two cells wide in the game and one in the model. The built-in level is ASCII, so there the two agree.
- Java `int` overflow is not modelled. Coordinates are unbounded integers, and every coordinate the game computes is within one step of a board cell.
- The move counter, the win flag and level validation with a malformed-level error are not modelled. The game has none of them.
- The model does not claim that the player always stands on a passable or lit cell. The player may stand on an open door and flip a switch next to them, and then stands on a locked door. Dousing a lamp can also leave the player on a dark cell.
- The order in which the flood fill visits cells is not part of any contract. Only the final lit set is.
