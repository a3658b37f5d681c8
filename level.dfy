/** The level: a rectangular tile grid, the entities keyed by the cell they
    occupy, the player, and the enemy counters. Movement, removal of entities
    and damage to the player are specified here as functions on a
    `LevelState` value; the `Level` class at the end holds the same state in
    fields and updates it in place, each method proved to follow its
    function. */
module Levels {
  import opened Types
  import opened Tiles
  import opened Entities

  type Cell = (int, int)

  /** The player as the level sees it: position, health and inventory. */
  datatype Hero = Hero(row: int, col: int, health: int, inventory: seq<ItemType>)

  /** Everything a level holds. `posted` lists the events the level has posted,
      oldest first; `interactions` lists the entities whose `interact()` the
      level has called, oldest first. */
  datatype LevelState = LevelState(
    grid: seq<seq<Tile>>,
    entities: map<Cell, Entity>,
    hero: Hero,
    enemyCount: int,
    maxEnemies: int,
    posted: seq<Event>,
    interactions: seq<Entity>)

  function Abs(x: int): nat
  {
    if x < 0 then -x else x
  }

  function Max(a: int, b: int): int
  {
    if a < b then b else a
  }

  // ---------------------------------------------------------------------------
  // Grid lookups

  /** Every row is as long as the first one, which gives the level's width. */
  predicate Rectangular(grid: seq<seq<Tile>>)
  {
    forall r :: 0 <= r < |grid| ==> |grid[r]| == |grid[0]|
  }

  /** Every stored tile carries its own coordinates. */
  ghost predicate Placed(grid: seq<seq<Tile>>)
  {
    forall r, c :: 0 <= r < |grid| && 0 <= c < |grid[r]| ==> grid[r][c].Pos() == (r, c)
  }

  /** (row, col) lies on the grid: below the height and below the width of
      the first row. */
  predicate TileExists(grid: seq<seq<Tile>>, row: int, col: int)
  {
    0 <= row < |grid| && 0 <= col < |grid[0]|
  }

  /** The tile at (row, col); any coordinate off the grid gives a WALL tile. */
  function TileAt(grid: seq<seq<Tile>>, row: int, col: int): Tile
    requires Rectangular(grid)
  {
    if TileExists(grid, row, col) then grid[row][col] else Tile(row, col, Wall)
  }

  /** The lookup never fails and always answers with a tile at the asked
      coordinates: the stored one on the grid, a WALL off it. */
  lemma TileAtSpec(grid: seq<seq<Tile>>, row: int, col: int)
    requires Rectangular(grid) && Placed(grid)
    ensures TileAt(grid, row, col).Pos() == (row, col)
    ensures TileExists(grid, row, col) ==> TileAt(grid, row, col) == grid[row][col]
    ensures !TileExists(grid, row, col) ==> TileAt(grid, row, col).kind == Wall
    ensures TileAt(grid, row, col).Walkable() ==> TileExists(grid, row, col)
  {
  }

  /** The offset of one step in a direction: exactly one unit along one axis. */
  function DirectionVector(d: Direction): (v: Cell)
    ensures Abs(v.0) + Abs(v.1) == 1
  {
    match d
    case Up => (-1, 0)
    case Right => (0, 1)
    case Down => (1, 0)
    case Left => (0, -1)
  }

  /** Different directions lead to different neighbours. */
  lemma DirectionVectorInjective(d1: Direction, d2: Direction)
    requires DirectionVector(d1) == DirectionVector(d2)
    ensures d1 == d2
  {
  }

  /** The tile one step from the player in direction `d`. */
  function TargetTile(s: LevelState, d: Direction): Tile
    requires Rectangular(s.grid)
  {
    var v := DirectionVector(d);
    TileAt(s.grid, s.hero.row + v.0, s.hero.col + v.1)
  }

  predicate CanMoveTo(target: Tile)
  {
    target.Walkable()
  }

  /** Top-left cell of the viewport: the player's cell less half the viewport
      in each direction, not clamped to the grid. */
  function TopLeft(s: LevelState, tileRows: nat, tileCols: nat): Cell
  {
    (s.hero.row - tileRows / 2, s.hero.col - tileCols / 2)
  }

  /** Whether an entity on (row, col) is drawn: both bounds inclusive, so the
      window spans tileRows + 1 rows and tileCols + 1 columns. */
  predicate TileVisible(s: LevelState, row: int, col: int, tileRows: nat, tileCols: nat)
  {
    var tl := TopLeft(s, tileRows, tileCols);
    tl.0 <= row <= tl.0 + tileRows && tl.1 <= col <= tl.1 + tileCols
  }

  /** Chebyshev distance from a tile to the player. */
  function DistToPlayer(s: LevelState, t: Tile): nat
  {
    Max(Abs(t.row - s.hero.row), Abs(t.col - s.hero.col))
  }

  // ---------------------------------------------------------------------------
  // The level's invariant

  /** The cells holding an enemy. */
  function EnemyCells(m: map<Cell, Entity>): set<Cell>
  {
    set k | k in m && m[k].kind == Enemy
  }

  /** What every level keeps true: a rectangular grid of placed tiles, each
      entity keyed by its own cell, the player on the grid and on no entity's
      cell, and the enemy counter equal to the number of enemies left. */
  ghost predicate WellFormed(s: LevelState)
  {
    && Rectangular(s.grid)
    && Placed(s.grid)
    && (forall k :: k in s.entities ==> s.entities[k].Pos() == k)
    && TileExists(s.grid, s.hero.row, s.hero.col)
    && (s.hero.row, s.hero.col) !in s.entities
    && s.enemyCount == |EnemyCells(s.entities)|
    && s.enemyCount <= s.maxEnemies
  }

  // ---------------------------------------------------------------------------
  // Movement

  /** One movement command: interact with the entity on the target cell if
      there is one, otherwise step onto the target if it is walkable,
      otherwise do nothing. */
  function Move(s: LevelState, d: Direction): LevelState
    requires Rectangular(s.grid)
  {
    var target := TargetTile(s, d);
    if target.Pos() in s.entities then
      s.(interactions := s.interactions + [s.entities[target.Pos()]])
    else if CanMoveTo(target) then
      s.(hero := s.hero.(row := target.row, col := target.col))
    else
      s
  }

  /** The target is the player's cell plus the direction's vector, and it is
      at distance one from the player. */
  lemma TargetIsNeighbour(s: LevelState, d: Direction)
    requires WellFormed(s)
    ensures var v := DirectionVector(d);
            TargetTile(s, d).Pos() == (s.hero.row + v.0, s.hero.col + v.1)
    ensures DistToPlayer(s, TargetTile(s, d)) == 1
  {
    var v := DirectionVector(d);
    TileAtSpec(s.grid, s.hero.row + v.0, s.hero.col + v.1);
  }

  /** A movement command has exactly one of three outcomes: an interaction
      with the entity on the target cell (player unchanged), a step onto a
      free walkable target, or no change at all. */
  lemma MoveOutcomes(s: LevelState, d: Direction)
    requires WellFormed(s)
    ensures var v := DirectionVector(d);
            var target := (s.hero.row + v.0, s.hero.col + v.1);
            && (target in s.entities ==>
                  Move(s, d) == s.(interactions := s.interactions + [s.entities[target]]))
            && (target !in s.entities && TileExists(s.grid, target.0, target.1)
                && s.grid[target.0][target.1].Walkable() ==>
                  Move(s, d) == s.(hero := s.hero.(row := target.0, col := target.1)))
            && (target !in s.entities
                && !(TileExists(s.grid, target.0, target.1) && s.grid[target.0][target.1].Walkable()) ==>
                  Move(s, d) == s)
  {
    var v := DirectionVector(d);
    TileAtSpec(s.grid, s.hero.row + v.0, s.hero.col + v.1);
  }

  /** The player never ends a move off the grid, and never steps onto a WALL. */
  lemma MoveNeverOntoWall(s: LevelState, d: Direction)
    requires WellFormed(s)
    ensures var h := Move(s, d).hero;
            && TileExists(s.grid, h.row, h.col)
            && ((h.row, h.col) != (s.hero.row, s.hero.col) ==> s.grid[h.row][h.col].kind != Wall)
  {
    var v := DirectionVector(d);
    TileAtSpec(s.grid, s.hero.row + v.0, s.hero.col + v.1);
  }

  /** Moving keeps the level's invariant and touches only the player's
      position and the interaction log. */
  lemma MoveKeepsWellFormed(s: LevelState, d: Direction)
    requires WellFormed(s)
    ensures WellFormed(Move(s, d))
    ensures Move(s, d).(hero := s.hero, interactions := s.interactions) == s
    ensures Move(s, d).hero.health == s.hero.health && Move(s, d).hero.inventory == s.hero.inventory
  {
    var v := DirectionVector(d);
    TileAtSpec(s.grid, s.hero.row + v.0, s.hero.col + v.1);
  }

  // ---------------------------------------------------------------------------
  // Removal of an entity

  /** Removing the entity on `e`'s cell: an enemy lowers the enemy counter, a
      key adds a key to the inventory, and LEVEL_CLEARED is posted whenever the
      counter is then zero or below. */
  function Remove(s: LevelState, e: Entity): LevelState
    requires e.Pos() in s.entities
  {
    var key := (e.row, e.col);
    var stored := s.entities[key];
    var count := if stored.kind == Enemy then s.enemyCount - 1 else s.enemyCount;
    var inventory :=
      if stored.kind != Enemy && stored.kind == Key then s.hero.inventory + [KeyItem]
      else s.hero.inventory;
    var s1 := s.(entities := s.entities - {key}, enemyCount := count,
                 hero := s.hero.(inventory := inventory));
    if count <= 0 then s1.(posted := s.posted + [LevelCleared]) else s1
  }

  /** What a removal changes: exactly the removed key leaves the entity map,
      the counter drops by one iff an enemy was removed, a key item is added
      iff a key was removed, LEVEL_CLEARED is posted iff the counter is then at
      most zero, and nothing else changes. */
  lemma RemoveSpec(s: LevelState, e: Entity)
    requires e.Pos() in s.entities
    ensures var s' := Remove(s, e);
            var kind := s.entities[e.Pos()].kind;
            && s'.entities.Keys == s.entities.Keys - {e.Pos()}
            && (forall k :: k in s'.entities ==> s'.entities[k] == s.entities[k])
            && s'.enemyCount == (if kind == Enemy then s.enemyCount - 1 else s.enemyCount)
            && s'.hero.inventory == (if kind == Key then s.hero.inventory + [KeyItem] else s.hero.inventory)
            && s'.posted == (if s'.enemyCount <= 0 then s.posted + [LevelCleared] else s.posted)
            && s'.(entities := s.entities, enemyCount := s.enemyCount, posted := s.posted,
                   hero := s.hero) == s
            && s'.hero.(inventory := s.hero.inventory) == s.hero
  {
  }

  /** The enemy cells after removing key k are the old ones less k. */
  lemma EnemyCellsRemove(m: map<Cell, Entity>, k: Cell)
    requires k in m
    ensures EnemyCells(m - {k}) == EnemyCells(m) - {k}
    ensures |EnemyCells(m - {k})| == |EnemyCells(m)| - (if m[k].kind == Enemy then 1 else 0)
  {
    assert EnemyCells(m - {k}) == EnemyCells(m) - {k};
    if m[k].kind == Enemy {
      assert k in EnemyCells(m);
    } else {
      assert EnemyCells(m) - {k} == EnemyCells(m);
    }
  }

  /** Removal keeps the level's invariant; in particular the enemy counter
      still equals the number of enemies left on the map. */
  lemma RemoveKeepsWellFormed(s: LevelState, e: Entity)
    requires WellFormed(s) && e.Pos() in s.entities
    ensures WellFormed(Remove(s, e))
  {
    EnemyCellsRemove(s.entities, e.Pos());
  }

  /** LEVEL_CLEARED is posted by a removal exactly when no enemy is left on the
      map afterwards; otherwise nothing is posted. */
  lemma LevelClearedIffNoEnemyLeft(s: LevelState, e: Entity)
    requires WellFormed(s) && e.Pos() in s.entities
    ensures Remove(s, e).posted == s.posted + [LevelCleared] <==> EnemyCells(Remove(s, e).entities) == {}
    ensures Remove(s, e).posted == s.posted || Remove(s, e).posted == s.posted + [LevelCleared]
  {
    RemoveKeepsWellFormed(s, e);
    var s' := Remove(s, e);
    if EnemyCells(s'.entities) != {} {
      var k :| k in EnemyCells(s'.entities);
      assert |EnemyCells(s'.entities)| > 0;
    }
    assert s'.posted != s.posted + [LevelCleared] || s'.posted != s.posted by {
      assert |s.posted + [LevelCleared]| != |s.posted|;
    }
  }

  /** Removing an enemy posts LEVEL_CLEARED exactly when it was the last one. */
  lemma LastEnemyClearsLevel(s: LevelState, e: Entity)
    requires WellFormed(s) && e.Pos() in s.entities && s.entities[e.Pos()].kind == Enemy
    ensures Remove(s, e).posted == s.posted + [LevelCleared] <==> EnemyCells(s.entities) == {e.Pos()}
  {
    LevelClearedIffNoEnemyLeft(s, e);
    EnemyCellsRemove(s.entities, e.Pos());
    assert e.Pos() in EnemyCells(s.entities);
    if EnemyCells(s.entities) - {e.Pos()} == {} {
      assert EnemyCells(s.entities) == {e.Pos()};
    }
  }

  /** A removal frees exactly one cell: the removed entity's cell is no
      longer a key, and the entity map is one entry smaller. */
  lemma RemovedCellIsFree(s: LevelState, e: Entity)
    requires e.Pos() in s.entities
    ensures e.Pos() !in Remove(s, e).entities
    ensures |Remove(s, e).entities| == |s.entities| - 1
  {
    assert Remove(s, e).entities.Keys == s.entities.Keys - {e.Pos()};
  }

  /** A removed entity cannot be met twice: after the removal, a movement
      towards its cell interacts with nothing, and the player steps onto the
      cell exactly when its tile is walkable. */
  lemma RemovedEntityNotMetAgain(s: LevelState, e: Entity, d: Direction)
    requires WellFormed(s) && e.Pos() in s.entities
    requires TargetTile(Remove(s, e), d).Pos() == e.Pos()
    ensures Move(Remove(s, e), d).interactions == s.interactions
    ensures Move(Remove(s, e), d).hero == Remove(s, e).hero.(row := e.row, col := e.col)
            <==> TargetTile(Remove(s, e), d).Walkable()
  {
    RemovedCellIsFree(s, e);
    assert (s.hero.row, s.hero.col) != e.Pos();
  }

  // ---------------------------------------------------------------------------
  // Damage to the player

  /** The player loses one health point; GAME_OVER is posted when health is
      then zero or below. */
  function Damage(s: LevelState): LevelState
  {
    var health := s.hero.health - 1;
    var s1 := s.(hero := s.hero.(health := health));
    if health <= 0 then s1.(posted := s.posted + [GameOver]) else s1
  }

  /** Damage lowers health by exactly one, posts GAME_OVER iff the new health
      is at most zero, changes nothing else and keeps the invariant. */
  lemma DamageSpec(s: LevelState)
    ensures Damage(s).hero.health == s.hero.health - 1
    ensures Damage(s).posted == (if s.hero.health <= 1 then s.posted + [GameOver] else s.posted)
    ensures Damage(s).(hero := s.hero, posted := s.posted) == s
    ensures Damage(s).hero.(health := s.hero.health) == s.hero
    ensures WellFormed(s) ==> WellFormed(Damage(s))
  {
  }

  // ---------------------------------------------------------------------------
  // The viewport and distances

  /** The player is always inside the viewport and drawn at its centre cell. */
  lemma PlayerAtViewportCentre(s: LevelState, tileRows: nat, tileCols: nat, tileSize: int)
    ensures TileVisible(s, s.hero.row, s.hero.col, tileRows, tileCols)
    ensures CellOffset(s.hero.row, s.hero.col, TopLeft(s, tileRows, tileCols), tileSize)
            == ((tileCols / 2) * tileSize, (tileRows / 2) * tileSize)
  {
  }

  /** For a square viewport of even side n, an entity cell is drawn exactly
      when it is within distance n / 2 of the player. */
  lemma VisibleIffNearPlayer(s: LevelState, t: Tile, n: nat)
    requires n % 2 == 0
    ensures TileVisible(s, t.row, t.col, n, n) <==> DistToPlayer(s, t) <= n / 2
  {
  }

  /** Distance zero means the player's own cell. */
  lemma DistZeroIffPlayerCell(s: LevelState, t: Tile)
    ensures DistToPlayer(s, t) == 0 <==> t.Pos() == (s.hero.row, s.hero.col)
  {
  }

  // ---------------------------------------------------------------------------
  // Loading a level from rows of digit codes

  /** The codes the loader is modelled on: 0 ground, 1 wall with the player,
      2 hazard with an enemy, and 4 to 9 ground with no entity (no entity
      type has those values). Code 3 is not among them. */
  predicate IsMapCode(ch: char)
  {
    '0' <= ch <= '9' && ch != '3'
  }

  lemma MapCodeValue(ch: char)
    requires IsMapCode(ch)
    ensures DigitValue(ch) == 1 <==> ch == '1'
    ensures DigitValue(ch) == 2 <==> ch == '2'
  {
  }

  /** Cell p of the map text holds the code ch. */
  predicate IsCode(lines: seq<string>, p: Cell, ch: char)
  {
    0 <= p.0 < |lines| && 0 <= p.1 < |lines[p.0]| && lines[p.0][p.1] == ch
  }

  /** A map text the loader accepts: rows of equal length made of the
      loader's codes, with at least one player code. */
  ghost predicate MapText(lines: seq<string>)
  {
    && (forall r :: 0 <= r < |lines| ==> |lines[r]| == |lines[0]|)
    && (forall r :: 0 <= r < |lines| ==> RowOfCodes(lines[r]))
    && exists p :: IsCode(lines, p, '1')
  }

  /** A row made only of the loader's codes. */
  predicate RowOfCodes(line: string)
  {
    forall c :: 0 <= c < |line| ==> IsMapCode(line[c])
  }

  /** The tiles of one row: one per character, typed by its digit. */
  function ParseRow(line: string, r: int): (row: seq<Tile>)
    requires RowOfCodes(line)
    ensures |row| == |line|
  {
    seq(|line|, c requires 0 <= c < |line| => Tile(r, c, TileTypeOfCode(DigitValue(line[c]))))
  }

  lemma ParseRowSnoc(line: string, r: int, c: int)
    requires RowOfCodes(line)
    requires 0 <= c < |line|
    ensures ParseRow(line[..c + 1], r) == ParseRow(line[..c], r) + [Tile(r, c, TileTypeOfCode(DigitValue(line[c])))]
  {
  }

  /** The tile grid of a map text. */
  function ParseGrid(lines: seq<string>): (grid: seq<seq<Tile>>)
    requires forall r :: 0 <= r < |lines| ==> RowOfCodes(lines[r])
    ensures |grid| == |lines|
  {
    seq(|lines|, r requires 0 <= r < |lines| => ParseRow(lines[r], r))
  }

  lemma ParseGridSnoc(lines: seq<string>, r: int)
    requires forall i :: 0 <= i < |lines| ==> RowOfCodes(lines[i])
    requires 0 <= r < |lines|
    ensures ParseGrid(lines[..r + 1]) == ParseGrid(lines[..r]) + [ParseRow(lines[r], r)]
  {
  }

  /** The cells of a map text that hold code ch. */
  function CodeCells(lines: seq<string>, ch: char): set<Cell>
  {
    set r, c | 0 <= r < |lines| && 0 <= c < |lines[r]| && lines[r][c] == ch :: (r, c)
  }

  lemma CodeCellsMember(lines: seq<string>, ch: char, p: Cell)
    ensures p in CodeCells(lines, ch) <==> IsCode(lines, p, ch)
  {
    if IsCode(lines, p, ch) {
      var r, c := p.0, p.1;
      assert (r, c) in CodeCells(lines, ch);
    }
  }

  /** An enemy on every cell with code 2. */
  function EnemySpawns(lines: seq<string>): map<Cell, Entity>
  {
    map p | p in CodeCells(lines, '2') :: Entity(p.0, p.1, Enemy)
  }

  /** The number of occurrences of ch in a row. */
  function CountInRow(line: string, ch: char): nat
  {
    if line == [] then 0
    else CountInRow(line[..|line| - 1], ch) + (if line[|line| - 1] == ch then 1 else 0)
  }

  /** The number of occurrences of ch in a map text. */
  function CountCode(lines: seq<string>, ch: char): nat
  {
    if lines == [] then 0
    else CountCode(lines[..|lines| - 1], ch) + CountInRow(lines[|lines| - 1], ch)
  }

  /** The cells of row r whose character is ch. */
  function RowCells(line: string, r: int, ch: char): set<Cell>
  {
    set c | 0 <= c < |line| && line[c] == ch :: (r, c)
  }

  lemma {:induction false} RowCellsCount(line: string, r: int, ch: char)
    ensures |RowCells(line, r, ch)| == CountInRow(line, ch)
  {
    if line != [] {
      var n := |line| - 1;
      var prefix := line[..n];
      RowCellsCount(prefix, r, ch);
      var last := if line[n] == ch then {(r, n)} else {};
      assert RowCells(line, r, ch) == RowCells(prefix, r, ch) + last by {
        forall p | p in RowCells(line, r, ch)
          ensures p in RowCells(prefix, r, ch) + last
        {
          var c :| 0 <= c < |line| && line[c] == ch && p == (r, c);
          if c < n {
            assert prefix[c] == ch;
          }
        }
        forall p | p in RowCells(prefix, r, ch)
          ensures p in RowCells(line, r, ch)
        {
          var c :| 0 <= c < |prefix| && prefix[c] == ch && p == (r, c);
          assert line[c] == ch;
        }
      }
      assert RowCells(prefix, r, ch) * last == {};
    }
  }

  /** The number of cells holding a code equals the number of its
      occurrences, counted row by row. */
  lemma {:induction false} CodeCellsCount(lines: seq<string>, ch: char)
    ensures |CodeCells(lines, ch)| == CountCode(lines, ch)
  {
    if lines == [] {
      assert CodeCells(lines, ch) == {};
    } else {
      var n := |lines| - 1;
      var prefix := lines[..n];
      CodeCellsCount(prefix, ch);
      RowCellsCount(lines[n], n, ch);
      assert CodeCells(lines, ch) == CodeCells(prefix, ch) + RowCells(lines[n], n, ch) by {
        forall p | p in CodeCells(lines, ch)
          ensures p in CodeCells(prefix, ch) + RowCells(lines[n], n, ch)
        {
          CodeCellsMember(lines, ch, p);
          if p.0 < n {
            CodeCellsMember(prefix, ch, p);
          } else {
            assert p == (n, p.1);
          }
        }
        forall p | p in CodeCells(prefix, ch)
          ensures p in CodeCells(lines, ch)
        {
          CodeCellsMember(prefix, ch, p);
          CodeCellsMember(lines, ch, p);
        }
        forall p | p in RowCells(lines[n], n, ch)
          ensures p in CodeCells(lines, ch)
        {
          CodeCellsMember(lines, ch, p);
        }
      }
      forall p | p in CodeCells(prefix, ch) * RowCells(lines[n], n, ch)
        ensures false
      {
        CodeCellsMember(prefix, ch, p);
      }
      assert CodeCells(prefix, ch) * RowCells(lines[n], n, ch) == {};
    }
  }

  /** p comes strictly before q in the loader's row-by-row scan. */
  predicate Before(p: Cell, q: Cell)
  {
    p.0 < q.0 || (p.0 == q.0 && p.1 < q.1)
  }

  /** p is the last player code in scan order: the loader keeps the player it
      creates last. */
  ghost predicate LastPlayerCode(lines: seq<string>, p: Cell)
  {
    IsCode(lines, p, '1') && forall q :: IsCode(lines, q, '1') ==> !Before(p, q)
  }

  /** There is only one last player code. */
  lemma LastPlayerCodeUnique(lines: seq<string>, p: Cell, q: Cell)
    requires LastPlayerCode(lines, p) && LastPlayerCode(lines, q)
    ensures p == q
  {
  }

  /** The state right after loading, with the player on cell p. */
  function Loaded(lines: seq<string>, p: Cell, health: int): LevelState
    requires forall r :: 0 <= r < |lines| ==> RowOfCodes(lines[r])
  {
    var enemies := CountCode(lines, '2');
    LevelState(ParseGrid(lines), EnemySpawns(lines), Hero(p.0, p.1, health, []),
               enemies, enemies, [], [])
  }

  /** A loaded level satisfies the invariant: both enemy counters equal the
      number of enemies spawned, one per code 2, and the player starts on a
      grid cell with no entity. */
  lemma LoadedWellFormed(lines: seq<string>, p: Cell, health: int)
    requires MapText(lines) && IsCode(lines, p, '1')
    ensures WellFormed(Loaded(lines, p, health))
    ensures Loaded(lines, p, health).enemyCount == |EnemySpawns(lines)| == CountCode(lines, '2')
  {
    var s := Loaded(lines, p, health);
    var spawns := EnemySpawns(lines);
    assert EnemyCells(spawns) == spawns.Keys == CodeCells(lines, '2');
    CodeCellsCount(lines, '2');
    CodeCellsMember(lines, '2', p);
  }

  /** A player code always lies under a WALL tile, so the player starts on a
      cell it could never walk back onto. */
  lemma PlayerStartsOnWall(lines: seq<string>, p: Cell)
    requires MapText(lines) && IsCode(lines, p, '1')
    ensures ParseGrid(lines)[p.0][p.1].kind == Wall
  {
  }

  /** Every code other than 1 and 2 loads as a GROUND tile with no entity. */
  lemma OtherCodesLoadAsGround(lines: seq<string>, r: int, c: int)
    requires MapText(lines)
    requires 0 <= r < |lines| && 0 <= c < |lines[r]| && lines[r][c] != '1' && lines[r][c] != '2'
    ensures ParseGrid(lines)[r][c] == Tile(r, c, Ground)
    ensures (r, c) !in EnemySpawns(lines)
  {
    CodeCellsMember(lines, '2', (r, c));
  }

  // ---------------------------------------------------------------------------
  // The loader's scan invariant

  /** After scanning every cell before (r, c): the enemy map holds one enemy per
      scanned code 2 and the counter matches, and (found, p) is the last
      scanned player code. */
  ghost predicate Scanned(lines: seq<string>, ents: map<Cell, Entity>, count: int,
                          found: bool, p: Cell, r: int, c: int)
  {
    && (forall q :: q in ents <==> IsCode(lines, q, '2') && Before(q, (r, c)))
    && (forall q :: q in ents ==> ents[q] == Entity(q.0, q.1, Enemy))
    && count == |ents|
    && (found ==> IsCode(lines, p, '1') && Before(p, (r, c)))
    && (forall q :: IsCode(lines, q, '1') && Before(q, (r, c)) ==> found && !Before(p, q))
  }

  /** Scanning a code other than 1 and 2 changes nothing. */
  lemma ScannedGround(lines: seq<string>, ents: map<Cell, Entity>, count: int,
                      found: bool, p: Cell, r: int, c: int)
    requires 0 <= r < |lines| && 0 <= c < |lines[r]| && lines[r][c] != '1' && lines[r][c] != '2'
    requires Scanned(lines, ents, count, found, p, r, c)
    ensures Scanned(lines, ents, count, found, p, r, c + 1)
  {
    forall q | IsCode(lines, q, '1') && Before(q, (r, c + 1))
      ensures found && !Before(p, q)
    {
      assert q != (r, c);
    }
  }

  /** Scanning a code 1 makes its cell the last player code seen. */
  lemma ScannedPlayer(lines: seq<string>, ents: map<Cell, Entity>, count: int,
                      found: bool, p: Cell, r: int, c: int)
    requires 0 <= r < |lines| && 0 <= c < |lines[r]| && lines[r][c] == '1'
    requires Scanned(lines, ents, count, found, p, r, c)
    ensures Scanned(lines, ents, count, true, (r, c), r, c + 1)
  {
  }

  /** Scanning a code 2 adds an enemy on its cell and counts it. */
  lemma ScannedEnemy(lines: seq<string>, ents: map<Cell, Entity>, count: int,
                     found: bool, p: Cell, r: int, c: int)
    requires 0 <= r < |lines| && 0 <= c < |lines[r]| && lines[r][c] == '2'
    requires Scanned(lines, ents, count, found, p, r, c)
    ensures Scanned(lines, ents[(r, c) := Entity(r, c, Enemy)], count + 1, found, p, r, c + 1)
  {
    assert (r, c) !in ents;
    forall q | IsCode(lines, q, '1') && Before(q, (r, c + 1))
      ensures found && !Before(p, q)
    {
      assert q != (r, c);
    }
  }

  lemma ScannedNextRow(lines: seq<string>, ents: map<Cell, Entity>, count: int,
                       found: bool, p: Cell, r: int)
    requires 0 <= r < |lines|
    requires Scanned(lines, ents, count, found, p, r, |lines[r]|)
    ensures Scanned(lines, ents, count, found, p, r + 1, 0)
  {
  }

  /** One enemy spawns per code 2 of the map text. */
  lemma SpawnCount(lines: seq<string>)
    ensures |EnemySpawns(lines)| == CountCode(lines, '2')
  {
    assert EnemySpawns(lines).Keys == CodeCells(lines, '2');
    CodeCellsCount(lines, '2');
  }

  /** Once every row is scanned, the scan has found the last player code. */
  lemma ScannedAllPlayer(lines: seq<string>, ents: map<Cell, Entity>, count: int, found: bool, p: Cell)
    requires exists q :: IsCode(lines, q, '1')
    requires Scanned(lines, ents, count, found, p, |lines|, 0)
    ensures found && LastPlayerCode(lines, p)
  {
    var q :| IsCode(lines, q, '1');
    assert Before(q, (|lines|, 0));
  }

  /** An enemy map holding an enemy on exactly the code-2 cells is the map's
      spawns. */
  lemma SpawnsExactly(lines: seq<string>, ents: map<Cell, Entity>)
    requires forall q :: q in ents <==> IsCode(lines, q, '2')
    requires forall q :: q in ents ==> ents[q] == Entity(q.0, q.1, Enemy)
    ensures ents == EnemySpawns(lines)
  {
    var spawns := EnemySpawns(lines);
    forall k ensures k in ents <==> k in spawns {
      CodeCellsMember(lines, '2', k);
    }
  }

  /** Once every row is scanned, the scan has spawned exactly the map's
      enemies and counted them. */
  lemma ScannedAllEnemies(lines: seq<string>, ents: map<Cell, Entity>, count: int, found: bool, p: Cell)
    requires Scanned(lines, ents, count, found, p, |lines|, 0)
    ensures ents == EnemySpawns(lines)
    ensures count == CountCode(lines, '2')
  {
    forall q ensures q in ents <==> IsCode(lines, q, '2') {
      if IsCode(lines, q, '2') {
        assert Before(q, (|lines|, 0));
      }
    }
    SpawnsExactly(lines, ents);
    SpawnCount(lines);
  }

  /** The loader's pass over row r: its tiles, and the enemies and player
      codes it holds added to what the earlier rows gave. */
  method ScanRow(lines: seq<string>, r: int, ents: map<Cell, Entity>, count: int, most: int,
                 found: bool, p: Cell)
    returns (row: seq<Tile>, ents': map<Cell, Entity>, count': int, most': int, found': bool, p': Cell)
    requires 0 <= r < |lines| && RowOfCodes(lines[r])
    requires most == count
    requires Scanned(lines, ents, count, found, p, r, 0)
    ensures row == ParseRow(lines[r], r)
    ensures most' == count'
    ensures Scanned(lines, ents', count', found', p', r + 1, 0)
  {
    var line := lines[r];
    row, ents', count', most', found', p' := [], ents, count, most, found, p;
    var c := 0;
    while c < |line|
      invariant 0 <= c <= |line|
      invariant row == ParseRow(line[..c], r)
      invariant most' == count'
      invariant Scanned(lines, ents', count', found', p', r, c)
    {
      var code := DigitValue(line[c]);
      MapCodeValue(line[c]);
      ParseRowSnoc(line, r, c);
      row := row + [Tile(r, c, TileTypeOfCode(code))];
      if code == 1 {
        ScannedPlayer(lines, ents', count', found', p', r, c);
        found', p' := true, (r, c);
      } else if code == 2 {
        ScannedEnemy(lines, ents', count', found', p', r, c);
        count', most' := count' + 1, most' + 1;
        ents' := ents'[(r, c) := Entity(r, c, Enemy)];
      } else {
        ScannedGround(lines, ents', count', found', p', r, c);
      }
      c := c + 1;
    }
    assert line[..c] == line;
    ScannedNextRow(lines, ents', count', found', p', r);
  }

  /** The loader's scan of a whole map text: the tile grid, an enemy on every
      code 2 counted in both counters, and the last player code's cell. */
  method ScanMap(lines: seq<string>)
    returns (g: seq<seq<Tile>>, ents: map<Cell, Entity>, count: int, most: int, pr: int, pc: int)
    requires MapText(lines)
    ensures g == ParseGrid(lines)
    ensures ents == EnemySpawns(lines)
    ensures count == most == CountCode(lines, '2')
    ensures LastPlayerCode(lines, (pr, pc))
  {
    g, ents, count, most := [], map[], 0, 0;
    var found := false;
    pr, pc := 0, 0;
    var r := 0;
    while r < |lines|
      invariant 0 <= r <= |lines|
      invariant g == ParseGrid(lines[..r])
      invariant most == count
      invariant Scanned(lines, ents, count, found, (pr, pc), r, 0)
    {
      var row, p;
      row, ents, count, most, found, p := ScanRow(lines, r, ents, count, most, found, (pr, pc));
      pr, pc := p.0, p.1;
      ParseGridSnoc(lines, r);
      g := g + [row];
      r := r + 1;
    }
    assert lines[..r] == lines;
    ScannedAllPlayer(lines, ents, count, found, (pr, pc));
    ScannedAllEnemies(lines, ents, count, found, (pr, pc));
  }

  // ---------------------------------------------------------------------------
  // The imperative level

  /** The player object the level updates in place. */
  class Player {
    var row: int
    var col: int
    var health: int
    var inventory: seq<ItemType>

    constructor (row: int, col: int, health: int)
      ensures this.row == row && this.col == col && this.health == health
      ensures inventory == []
    {
      this.row := row;
      this.col := col;
      this.health := health;
      inventory := [];
    }
  }

  class Level {
    var grid: seq<seq<Tile>>
    var entities: map<Cell, Entity>
    const player: Player
    var enemyCount: int
    var maxEnemies: int
    var posted: seq<Event>
    var interactions: seq<Entity>

    /** The level's current value. */
    function Abstract(): LevelState
      reads this, player
    {
      LevelState(grid, entities,
                 Hero(player.row, player.col, player.health, player.inventory),
                 enemyCount, maxEnemies, posted, interactions)
    }

    ghost predicate Valid()
      reads this, player
    {
      WellFormed(Abstract())
    }

    /** Loads a level from its rows of codes, scanning row by row and cell by
        cell: one tile per code, an enemy per code 2 counted in both counters,
        and the player on the last code 1. */
    constructor Load(lines: seq<string>, initialHealth: int)
      requires MapText(lines)
      ensures Valid()
      ensures fresh(player)
      ensures LastPlayerCode(lines, (player.row, player.col))
      ensures Abstract() == Loaded(lines, (player.row, player.col), initialHealth)
    {
      var g, ents, count, most, pr, pc := ScanMap(lines);
      LoadedWellFormed(lines, (pr, pc), initialHealth);
      grid := g;
      entities := ents;
      enemyCount := count;
      maxEnemies := most;
      player := new Player(pr, pc, initialHealth);
      posted := [];
      interactions := [];
    }

    /** `handle_movement`: interact with the entity on the target cell, or
        step there when the tile is walkable, or do nothing. */
    method HandleMovement(d: Direction)
      requires Valid()
      modifies this`interactions, player`row, player`col
      ensures Valid()
      ensures Abstract() == Move(old(Abstract()), d)
    {
      ghost var s := Abstract();
      MoveKeepsWellFormed(s, d);
      var v := DirectionVector(d);
      var target := TileAt(grid, player.row + v.0, player.col + v.1);
      assert target == TargetTile(s, d);
      if target.Pos() in entities {
        interactions := interactions + [entities[target.Pos()]];
        assert Abstract() == Move(s, d);
      } else if CanMoveTo(target) {
        player.row := target.row;
        player.col := target.col;
        assert Abstract() == Move(s, d);
      } else {
        assert Abstract() == Move(s, d);
      }
    }

    /** `remove_entity`: the entity's cell must be a key of the entity map. */
    method RemoveEntity(e: Entity)
      requires Valid() && e.Pos() in entities
      modifies this`entities, this`enemyCount, this`posted, player`inventory
      ensures Valid()
      ensures Abstract() == Remove(old(Abstract()), e)
    {
      var key := (e.row, e.col);
      if entities[key].kind == Enemy {
        enemyCount := enemyCount - 1;
      } else if entities[key].kind == Key {
        player.inventory := player.inventory + [KeyItem];
      }
      entities := entities - {key};
      if enemyCount <= 0 {
        posted := posted + [LevelCleared];
      }
      RemoveKeepsWellFormed(old(Abstract()), e);
    }

    /** `damage_received`: one health point less, GAME_OVER at zero or below. */
    method DamageReceived()
      requires Valid()
      modifies this`posted, player`health
      ensures Valid()
      ensures Abstract() == Damage(old(Abstract()))
    {
      player.health := player.health - 1;
      if player.health <= 0 {
        posted := posted + [GameOver];
      }
    }
  }
}
