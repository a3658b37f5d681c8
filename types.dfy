/** The enumerations shared by the level, the minigame and the main loop:
    tile and entity types, player items, movement directions and the custom
    events the core posts on the game's event queue. */
module Types {

  datatype Option<T> = None | Some(value: T)

  /** Handle of an image the asset registry hands out; its pixels are not modelled. */
  datatype Image = Image(id: nat)

  /** Tile types with their enum values GROUND = 0, WALL = 1, HAZARD = 2. */
  datatype TileType = Ground | Wall | Hazard

  /** Entity types EMPTY = 0, PLAYER = 1, ENEMY = 2, LOOT = 3, plus `Key`, the
      kind the level's removal rule tests for (its enum value is not defined
      alongside the other four, so it has none here). */
  datatype EntityType = Empty | Player | Enemy | Loot | Key

  /** Items the player can carry. */
  datatype ItemType = KeyItem

  /** Movement directions UP = 0, RIGHT = 1, DOWN = 2, LEFT = 3. */
  datatype Direction = Up | Right | Down | Left

  /** The custom events the core posts. The texts that the level attaches to
      LEVEL_CLEARED and GAME_OVER come from a text provider outside the model. */
  datatype Event =
    | EnemyDefeated(row: int, col: int)
    | DamageReceived
    | GameOver
    | LevelCleared

  /** The enum value of a tile type. */
  function TileTypeValue(t: TileType): nat
  {
    match t
    case Ground => 0
    case Wall => 1
    case Hazard => 2
  }

  /** `TileType(code)` with the loader's fallback: a code that is no tile type's
      value gives GROUND. */
  function TileTypeOfCode(code: int): (t: TileType)
    ensures 0 <= code <= 2 ==> TileTypeValue(t) == code
    ensures !(0 <= code <= 2) ==> t == Ground
  {
    if code == 1 then Wall else if code == 2 then Hazard else Ground
  }

  /** Decoding a tile type's own value gives that type back. */
  lemma TileTypeCodeRoundTrip(t: TileType)
    ensures TileTypeOfCode(TileTypeValue(t)) == t
  {
  }

  predicate IsDigit(ch: char)
  {
    '0' <= ch <= '9'
  }

  /** `int(ch)` for a single decimal digit. */
  function DigitValue(ch: char): (v: int)
    requires IsDigit(ch)
    ensures 0 <= v <= 9
    ensures (v + '0' as int) as char == ch
  {
    ch as int - '0' as int
  }
}
