/** The tile vocabulary of the escape room and its one-character level symbols.
    The game stores a level character per cell; here each character is parsed
    once, at load time, into a closed set of tile values.  A character outside
    the vocabulary is kept verbatim as `Other`, because the loader copies it
    unchanged and every rule then treats it like plain floor. */
module Tiles {

  datatype Tile =
    | Wall          // '#'
    | Floor         // '.'
    | Exit          // 'E'
    | LampOff       // 'L'
    | LampOn        // '*'
    | Switch        // 'S'
    | DoorLocked    // 'D'
    | DoorOpen      // '/'
    | Other(symbol: char)

  /** The level symbols that name a tile of the vocabulary. */
  const Vocabulary: seq<char> := ['#', '.', 'E', 'L', '*', 'S', 'D', '/']

  /** A tile the loader can produce: `Other` only for a character outside the vocabulary. */
  predicate Canonical(t: Tile) {
    t.Other? ==> t.symbol !in Vocabulary
  }

  /** The level character a tile stands for. */
  function Symbol(t: Tile): char {
    match t
    case Wall => '#'
    case Floor => '.'
    case Exit => 'E'
    case LampOff => 'L'
    case LampOn => '*'
    case Switch => 'S'
    case DoorLocked => 'D'
    case DoorOpen => '/'
    case Other(ch) => ch
  }

  /** The tile a level character denotes; no character is lost. */
  function Parse(ch: char): (t: Tile)
    ensures Symbol(t) == ch
  {
    match ch
    case '#' => Wall
    case '.' => Floor
    case 'E' => Exit
    case 'L' => LampOff
    case '*' => LampOn
    case 'S' => Switch
    case 'D' => DoorLocked
    case '/' => DoorOpen
    case _ => Other(ch)
  }

  /** Parsing yields a tile of the vocabulary exactly for a character of the vocabulary. */
  lemma ParseCanonical(ch: char)
    ensures Canonical(Parse(ch))
    ensures Parse(ch).Other? <==> ch !in Vocabulary
  {
  }

  /** Parsing the symbol of a canonical tile gives the tile back. */
  lemma ParseSymbol(t: Tile)
    requires Canonical(t)
    ensures Parse(Symbol(t)) == t
  {
  }

  /** Walls and locked doors stop the player. */
  predicate BlocksMovement(t: Tile) {
    t == Wall || t == DoorLocked
  }

  /** Walls and locked doors stop the light: a locked door is as opaque as a wall. */
  predicate BlocksLight(t: Tile)
    ensures BlocksLight(t) <==> BlocksMovement(t)
  {
    t == Wall || t == DoorLocked
  }

  /** Of the level characters, exactly '#' and 'D' block the player and the light. */
  lemma BlockingSymbols(ch: char)
    ensures BlocksMovement(Parse(ch)) <==> ch == '#' || ch == 'D'
    ensures BlocksLight(Parse(ch)) <==> ch == '#' || ch == 'D'
  {
  }

  /** The tiles a click next to the player interacts with. */
  predicate Interactive(t: Tile) {
    t == LampOff || t == LampOn || t == Switch
  }

  /** What a switch does to one cell: locked and open doors swap, nothing else changes. */
  function ToggleDoor(t: Tile): (u: Tile)
    ensures t == DoorLocked <==> u == DoorOpen
    ensures t == DoorOpen <==> u == DoorLocked
    ensures t != DoorLocked && t != DoorOpen ==> u == t
  {
    match t
    case DoorLocked => DoorOpen
    case DoorOpen => DoorLocked
    case _ => t
  }
}
