/** The level catalog: five fixed levels, each with a target apple count,
    a speed multiplier and a set of obstacle cells on the 20x20 grid. */
module Levels {

  /** A grid cell; x grows to the right, y grows downwards. */
  datatype Position = Position(x: int, y: int)

  const GRID_SIZE: int := 20

  predicate InGrid(p: Position) {
    0 <= p.x < GRID_SIZE && 0 <= p.y < GRID_SIZE
  }

  datatype LevelConfig = LevelConfig(
    level: int,
    name: string,
    targetApples: int,
    speedMultiplier: real,
    obstacles: seq<Position>)

  // Level 1: no obstacles
  const Level1Obstacles: seq<Position> := []

  // Level 2: two short bars on the top and the bottom
  const Level2Obstacles: seq<Position> := [
    Position(5, 5), Position(6, 5), Position(7, 5),
    Position(12, 5), Position(13, 5), Position(14, 5),
    Position(5, 14), Position(6, 14), Position(7, 14),
    Position(12, 14), Position(13, 14), Position(14, 14)
  ]

  // Level 3: a broken cross through the centre
  const Level3Obstacles: seq<Position> := [
    Position(10, 5), Position(10, 6), Position(10, 7),
    Position(10, 12), Position(10, 13), Position(10, 14),
    Position(5, 10), Position(6, 10), Position(7, 10),
    Position(12, 10), Position(13, 10), Position(14, 10)
  ]

  // Level 4: a 2x2 box near each corner
  const Level4Obstacles: seq<Position> := [
    Position(3, 3), Position(4, 3), Position(3, 4), Position(4, 4),
    Position(15, 3), Position(16, 3), Position(15, 4), Position(16, 4),
    Position(3, 15), Position(4, 15), Position(3, 16), Position(4, 16),
    Position(15, 15), Position(16, 15), Position(15, 16), Position(16, 16)
  ]

  // Level 5: a maze of barriers and connectors
  const Level5Obstacles: seq<Position> := [
    Position(4, 4), Position(5, 4), Position(6, 4), Position(7, 4),
    Position(12, 4), Position(13, 4), Position(14, 4), Position(15, 4),
    Position(4, 10), Position(5, 10), Position(6, 10),
    Position(13, 10), Position(14, 10), Position(15, 10),
    Position(4, 15), Position(5, 15), Position(6, 15), Position(7, 15),
    Position(12, 15), Position(13, 15), Position(14, 15), Position(15, 15),
    Position(8, 7), Position(8, 8), Position(8, 12), Position(8, 13),
    Position(11, 7), Position(11, 8), Position(11, 12), Position(11, 13)
  ]

  const LEVELS: seq<LevelConfig> := [
    LevelConfig(1, "Warm Up", 5, 1.0, Level1Obstacles),
    LevelConfig(2, "Getting Tricky", 8, 1.1, Level2Obstacles),
    LevelConfig(3, "Cross Roads", 10, 1.2, Level3Obstacles),
    LevelConfig(4, "Corner Chaos", 12, 1.3, Level4Obstacles),
    LevelConfig(5, "Maze Master", 15, 1.4, Level5Obstacles)
  ]

  function Min(a: int, b: int): int { if a <= b then a else b }

  function Max(a: int, b: int): int { if a >= b then a else b }

  /** Looks a level up by its 1-based number, clamping the index into the
      catalog. */
  function GetLevelConfig(level: int): LevelConfig {
    var index := Min(level - 1, |LEVELS| - 1);
    LEVELS[Max(0, index)]
  }

  /** The lookup never indexes out of range: numbers below 1 give the first
      level, numbers past the end the last one, and every number in range
      gives the level carrying that number. */
  lemma LevelLookupClamps(level: int)
    ensures level <= 1 ==> GetLevelConfig(level) == LEVELS[0]
    ensures level >= |LEVELS| ==> GetLevelConfig(level) == LEVELS[|LEVELS| - 1]
    ensures 1 <= level <= |LEVELS| ==>
      GetLevelConfig(level) == LEVELS[level - 1] && GetLevelConfig(level).level == level
  {
    CatalogShape();
  }

  /** Array.some over the obstacles: true iff one of them has both
      coordinates of cell (x, y). */
  function IsObstacle(x: int, y: int, obstacles: seq<Position>): (r: bool)
    ensures r <==> exists i :: 0 <= i < |obstacles| && obstacles[i].x == x && obstacles[i].y == y
  {
    Position(x, y) in obstacles
  }

  /** The catalog holds levels 1..5 in order; targets are positive and
      strictly increasing, and so are the speed multipliers, all at least 1. */
  lemma CatalogShape()
    ensures |LEVELS| == 5
    ensures forall i :: 0 <= i < |LEVELS| ==> LEVELS[i].level == i + 1
    ensures forall i :: 0 <= i < |LEVELS| ==> LEVELS[i].targetApples > 0 && LEVELS[i].speedMultiplier >= 1.0
    ensures forall i, j :: 0 <= i < j < |LEVELS| ==> LEVELS[i].targetApples < LEVELS[j].targetApples
    ensures forall i, j :: 0 <= i < j < |LEVELS| ==> LEVELS[i].speedMultiplier < LEVELS[j].speedMultiplier
  {
  }

  /** True iff every cell of `cells` is on the grid and below the top row. */
  predicate AllInsideBelowTopRow(cells: seq<Position>) {
    forall j :: 0 <= j < |cells| ==> InGrid(cells[j]) && cells[j].y > 0
  }

  /** Whatever level number is asked for, its target is between 1 and 15
      and its multiplier at least 1. */
  lemma LevelParametersInRange(level: int)
    ensures 0 < GetLevelConfig(level).targetApples <= 15
    ensures GetLevelConfig(level).speedMultiplier >= 1.0
  {
    CatalogShape();
  }

  /** Every obstacle of every level lies on the grid, below the top row. */
  lemma ObstaclesOnGrid(i: int)
    requires 0 <= i < |LEVELS|
    ensures forall p :: p in LEVELS[i].obstacles ==> InGrid(p) && p.y > 0
  {
    var obstacles := LEVELS[i].obstacles;
    assert AllInsideBelowTopRow(obstacles) by {
      if i == 1 {
        Level2Inside();
      } else if i == 2 {
        Level3Inside();
      } else if i == 3 {
        Level4Inside();
      } else if i == 4 {
        Level5Inside();
      }
    }
  }

  // One lemma per obstacle list, so each list is checked on its own.
  lemma Level2Inside() ensures AllInsideBelowTopRow(Level2Obstacles) {}
  lemma Level3Inside() ensures AllInsideBelowTopRow(Level3Obstacles) {}
  lemma Level4Inside() ensures AllInsideBelowTopRow(Level4Obstacles) {}
  lemma Level5Inside() ensures AllInsideBelowTopRow(Level5Obstacles) {}

  /** The first level is obstacle-free. */
  lemma Level1HasNoObstacles()
    ensures LEVELS[0].obstacles == []
    ensures forall x, y :: !IsObstacle(x, y, LEVELS[0].obstacles)
  {
  }
}
