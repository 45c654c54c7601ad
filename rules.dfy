/** How a click is resolved, as values: which action a clicked cell triggers
    (interaction first, then movement), what the status line reports for a
    move attempt, and what an interaction does to the grid. */
module Rules {
  import opened Tiles
  import opened Board

  /** The action a click resolves to. */
  datatype Action =
    | LightLamp     // the clicked lamp next to the player goes on
    | DouseLamp     // the clicked lamp next to the player goes off
    | FlipSwitch    // the clicked switch next to the player toggles every door
    | Walk          // the player attempts to step onto the clicked 4-neighbour
    | Nothing       // the click is ignored

  /** What the status line reports after an action; `Silent` when it is left as it was. */
  datatype Status =
    | LampTurnedOn
    | LampTurnedOff
    | DoorsToggled
    | Moved
    | RoomComplete
    | TileDark
    | Silent

  predicate IsInteraction(a: Action) {
    a == LightLamp || a == DouseLamp || a == FlipSwitch
  }

  /** Resolve a click on `target`, whose tile is `t`, with the player at `player`.
      Interaction is tried before movement. */
  function Resolve(t: Tile, player: Cell, target: Cell): (a: Action)
    ensures IsInteraction(a) <==>
      IsNeighborOrSelf(target.row, target.col, player.row, player.col) && Interactive(t)
    ensures a == LightLamp ==> t == LampOff
    ensures a == DouseLamp ==> t == LampOn
    ensures a == FlipSwitch ==> t == Switch
    ensures a == Walk <==> Is4Neighbor(target.row, target.col, player.row, player.col) && !Interactive(t)
    ensures target == player ==> a != Walk
    ensures !IsNeighborOrSelf(target.row, target.col, player.row, player.col) ==> a == Nothing
  {
    var near := IsNeighborOrSelf(target.row, target.col, player.row, player.col);
    if near && t == LampOff then LightLamp
    else if near && t == LampOn then DouseLamp
    else if near && t == Switch then FlipSwitch
    else if Is4Neighbor(target.row, target.col, player.row, player.col) then Walk
    else Nothing
  }

  /** The step succeeds: the player lands on the target. */
  predicate Advances(s: Status) {
    s == Moved || s == RoomComplete
  }

  /** The report of a step onto an in-bounds tile `t` that is lit or not. */
  function MoveOutcome(t: Tile, lit: bool): (s: Status)
    ensures Advances(s) <==> !BlocksMovement(t) && lit
    ensures s == RoomComplete <==> t == Exit && lit
    ensures s == TileDark <==> !BlocksMovement(t) && !lit
    ensures s == Silent <==> BlocksMovement(t)
  {
    if BlocksMovement(t) then Silent
    else if !lit then TileDark
    else if t == Exit then RoomComplete
    else Moved
  }

  /** What an action does to the grid; a walk and an ignored click leave it alone. */
  function Apply(g: Grid, a: Action, x: Cell): (h: Grid)
    requires Rectangular(g) && InBounds(g, x)
    ensures |h| == |g| && Rectangular(h) && |h[0]| == |g[0]|
    // The four equations below only spare callers an unfolding of the body;
    // `ApplyEffect` states what an action does to each cell.
    ensures a == LightLamp ==> h == WithTile(g, x, LampOn)
    ensures a == DouseLamp ==> h == WithTile(g, x, LampOff)
    ensures a == FlipSwitch ==> h == ToggledDoors(g)
    ensures !IsInteraction(a) ==> h == g
  {
    match a
    case LightLamp => WithTile(g, x, LampOn)
    case DouseLamp => WithTile(g, x, LampOff)
    case FlipSwitch => ToggledDoors(g)
    case _ => g
  }

  /** The effect of an action cell by cell: lighting or dousing writes the
      clicked cell and nothing else, a switch changes only doors (each one to
      the other door state), and a walk or an ignored click changes nothing. */
  lemma ApplyEffect(g: Grid, a: Action, x: Cell)
    requires Rectangular(g) && InBounds(g, x)
    ensures a == LightLamp ==> At(Apply(g, a, x), x) == LampOn
    ensures a == DouseLamp ==> At(Apply(g, a, x), x) == LampOff
    ensures forall y :: InBounds(g, y) && y != x && a != FlipSwitch ==> At(Apply(g, a, x), y) == At(g, y)
    ensures forall y :: InBounds(g, y) && At(Apply(g, a, x), y) != At(g, y) ==>
      || (y == x && (a == LightLamp || a == DouseLamp))
      || (a == FlipSwitch && (At(g, y) == DoorLocked || At(g, y) == DoorOpen))
    ensures forall y :: InBounds(g, y) && a == FlipSwitch && At(g, y) == DoorLocked ==> At(Apply(g, a, x), y) == DoorOpen
    ensures forall y :: InBounds(g, y) && a == FlipSwitch && At(g, y) == DoorOpen ==> At(Apply(g, a, x), y) == DoorLocked
  {
  }
}
