/** The pure rules behind the game hook: directions, one-cell head movement,
    collision, the movement step, apple spawning, speed and the keyboard table. */
module ShankRules {
  import opened Levels

  datatype Direction = Up | Down | Left | Right

  datatype GameState = Start | Playing | Paused | GameOver | LevelComplete

  /** A value drawn by Math.random(): a real in [0, 1). */
  type Roll = r: real | 0.0 <= r < 1.0 witness 0.0

  const INITIAL_SPEED: real := 150.0
  const SPEED_INCREMENT: real := 5.0
  const MIN_SPEED: real := 80.0
  const APPLE_POINTS: int := 10

  /** Where an apple goes when no grid cell is free. */
  const FALLBACK_APPLE: Position := Position(15, 10)

  /** The three-segment body every run and every level starts from, head first. */
  const START_BODY: seq<Position> := [Position(10, 10), Position(9, 10), Position(8, 10)]

  function Abs(n: int): nat { if n < 0 then -n else n }

  /** Two cells are adjacent when they are one grid step apart. */
  predicate Adjacent(a: Position, b: Position) {
    Abs(a.x - b.x) + Abs(a.y - b.y) == 1
  }

  /** The 180-degree turn of each direction. */
  function Opposite(d: Direction): (o: Direction)
    ensures o != d
  {
    match d
    case Up => Down
    case Down => Up
    case Left => Right
    case Right => Left
  }

  /** The cell the head enters when it moves one step in direction d
      (y grows downwards, so Up decreases y). */
  function NextHead(head: Position, d: Direction): (p: Position)
    ensures Adjacent(head, p)
  {
    match d
    case Up => Position(head.x, head.y - 1)
    case Down => Position(head.x, head.y + 1)
    case Left => Position(head.x - 1, head.y)
    case Right => Position(head.x + 1, head.y)
  }

  /** A step followed by a step in the opposite direction returns to the start. */
  lemma OppositeUndoesStep(head: Position, d: Direction)
    ensures NextHead(NextHead(head, d), Opposite(d)) == head
    ensures Opposite(Opposite(d)) == d
  {
  }

  /** The collision test applied to a new head: a wall, an obstacle, or any
      segment of the current body except the head, the tail included. */
  predicate Collides(head: Position, body: seq<Position>, obstacles: seq<Position>) {
    || !InGrid(head)
    || IsObstacle(head.x, head.y, obstacles)
    || exists i :: 1 <= i < |body| && body[i] == head
  }

  /** checkCollision: the wall test, the obstacle test, then a scan of the
      body from its second segment. */
  method CheckCollision(head: Position, body: seq<Position>, obstacles: seq<Position>) returns (hit: bool)
    ensures hit <==> Collides(head, body, obstacles)
  {
    if head.x < 0 || head.x >= GRID_SIZE || head.y < 0 || head.y >= GRID_SIZE {
      return true;
    }
    if IsObstacle(head.x, head.y, obstacles) {
      return true;
    }
    var i := 1;
    while i < |body|
      invariant 1 <= i
      invariant forall j :: 1 <= j < i && j < |body| ==> body[j] != head
    {
      if body[i].x == head.x && body[i].y == head.y {
        return true;
      }
      i := i + 1;
    }
    return false;
  }

  /** What one movement step does to the body. */
  datatype Outcome = Collision | Moved(body: seq<Position>, ate: bool)

  /** One movement step: the head enters the next cell; on a collision the
      body is kept, on the apple the body grows, otherwise the tail is dropped. */
  function Step(body: seq<Position>, d: Direction, apple: Position, obstacles: seq<Position>): (o: Outcome)
    requires |body| >= 1
    ensures o.Collision? <==> Collides(NextHead(body[0], d), body, obstacles)
    ensures o.Moved? ==> (o.ate <==> NextHead(body[0], d) == apple)
    ensures o.Moved? ==> |o.body| == if o.ate then |body| + 1 else |body|
    ensures o.Moved? ==> o.body[0] == NextHead(body[0], d) && o.body[1..] <= body
  {
    var newHead := NextHead(body[0], d);
    if Collides(newHead, body, obstacles) then Collision
    else if newHead == apple then Moved([newHead] + body, true)
    else Moved([newHead] + body[..|body| - 1], false)
  }

  /** A body the engine can produce: at least one segment, every segment on
      the grid and off the obstacles, no cell twice, each segment adjacent to
      the next. */
  predicate WellFormedBody(body: seq<Position>, obstacles: seq<Position>) {
    && |body| >= 1
    && (forall i :: 0 <= i < |body| ==> InGrid(body[i]) && body[i] !in obstacles)
    && (forall i, j :: 0 <= i < j < |body| ==> body[i] != body[j])
    && (forall i :: 0 <= i < |body| - 1 ==> Adjacent(body[i], body[i + 1]))
  }

  /** A successful step keeps the body well formed: the new head is on the
      grid, off the obstacles, next to the old head, and differs from every
      old segment (from segment 1 on by the collision test, from the old head
      because it moved). */
  lemma StepKeepsBodyWellFormed(body: seq<Position>, d: Direction, apple: Position, obstacles: seq<Position>)
    requires WellFormedBody(body, obstacles)
    requires Step(body, d, apple, obstacles).Moved?
    ensures WellFormedBody(Step(body, d, apple, obstacles).body, obstacles)
  {
  }

  /** An apple off the body stays off it when the step does not eat it. */
  lemma StepKeepsAppleOffBody(body: seq<Position>, d: Direction, apple: Position, obstacles: seq<Position>)
    requires |body| >= 1 && apple !in body
    requires Step(body, d, apple, obstacles).Moved? && !Step(body, d, apple, obstacles).ate
    ensures apple !in Step(body, d, apple, obstacles).body
  {
    var b := Step(body, d, apple, obstacles).body;
    forall i | 0 <= i < |b| ensures b[i] != apple {
      if i > 0 {
        assert b[i] == body[i - 1];
      }
    }
  }

  /** The collision test does not spare the tail, although the tail would be
      vacated by the same step: moving onto it ends the game. */
  lemma MovingOntoTailCollides(body: seq<Position>, d: Direction, apple: Position, obstacles: seq<Position>)
    requires |body| >= 2 && NextHead(body[0], d) == body[|body| - 1]
    ensures Step(body, d, apple, obstacles) == Collision
  {
  }

  // ---------------------------------------------------------------- apples

  /** The k-th cell visited by the spawner's nested loops (x outer, y inner). */
  function CellAt(k: int): Position {
    Position(k / GRID_SIZE, k % GRID_SIZE)
  }

  /** A cell neither on the body nor on an obstacle. */
  predicate IsFree(p: Position, body: seq<Position>, obstacles: seq<Position>) {
    p !in body && !IsObstacle(p.x, p.y, obstacles)
  }

  /** Every cell of the grid in the order the spawner visits them. */
  function GridCells(): (cells: seq<Position>)
    ensures |cells| == GRID_SIZE * GRID_SIZE
    ensures forall k :: 0 <= k < |cells| ==> cells[k] == CellAt(k)
  {
    seq(GRID_SIZE * GRID_SIZE, k => CellAt(k))
  }

  /** The free cells among `cells`, in their order. */
  function FreeAmong(cells: seq<Position>, body: seq<Position>, obstacles: seq<Position>): seq<Position> {
    if cells == [] then []
    else
      var p := cells[|cells| - 1];
      FreeAmong(cells[..|cells| - 1], body, obstacles) + if IsFree(p, body, obstacles) then [p] else []
  }

  /** Every free cell of the grid, in the order the spawner lists them. */
  function FreeCells(body: seq<Position>, obstacles: seq<Position>): seq<Position> {
    FreeAmong(GridCells(), body, obstacles)
  }

  lemma CellAtIndex(x: int, y: int)
    requires 0 <= x < GRID_SIZE && 0 <= y < GRID_SIZE
    ensures CellAt(x * GRID_SIZE + y) == Position(x, y)
  {
  }

  /** The listing keeps exactly the free cells of the list it scans. */
  lemma {:induction false} FreeAmongMembers(cells: seq<Position>, body: seq<Position>, obstacles: seq<Position>, p: Position)
    ensures p in FreeAmong(cells, body, obstacles) <==> p in cells && IsFree(p, body, obstacles)
  {
    if cells != [] {
      var front := cells[..|cells| - 1];
      FreeAmongMembers(front, body, obstacles, p);
      assert cells == front + [cells[|cells| - 1]];
    }
  }

  /** The first k cells visited are the grid cells whose visiting index,
      x * 20 + y, is below k. */
  lemma VisitedCells(k: nat, p: Position)
    requires k <= GRID_SIZE * GRID_SIZE
    ensures p in GridCells()[..k] <==> InGrid(p) && p.x * GRID_SIZE + p.y < k
  {
    var cells := GridCells();
    if p in cells[..k] {
      var j :| 0 <= j < k && cells[..k][j] == p;
      assert cells[j] == CellAt(j);
    }
    if InGrid(p) && p.x * GRID_SIZE + p.y < k {
      CellAtIndex(p.x, p.y);
      assert cells[..k][p.x * GRID_SIZE + p.y] == p;
    }
  }

  /** The spawner's listing holds exactly the free cells of the grid. */
  lemma FreeCellsMembers(body: seq<Position>, obstacles: seq<Position>, p: Position)
    ensures p in FreeCells(body, obstacles) <==> InGrid(p) && IsFree(p, body, obstacles)
  {
    FreeAmongMembers(GridCells(), body, obstacles, p);
    VisitedCells(GRID_SIZE * GRID_SIZE, p);
    assert GridCells()[..GRID_SIZE * GRID_SIZE] == GridCells();
  }

  /** Math.floor(roll * n): an index into a list of n > 0 cells. */
  function RandomIndex(roll: Roll, n: int): (i: int)
    requires n > 0
    ensures 0 <= i < n
  {
    var scaled := roll * n as real;
    assert 0.0 <= scaled < n as real by {
      assert (1.0 - roll) * n as real > 0.0;
    }
    scaled.Floor
  }

  /** The cell spawnApple returns for a listing of free cells and a roll. */
  function PickApple(free: seq<Position>, roll: Roll): (p: Position)
    ensures |free| > 0 ==> p in free
    ensures |free| == 0 ==> p == FALLBACK_APPLE
  {
    if |free| > 0 then free[RandomIndex(roll, |free|)] else FALLBACK_APPLE
  }

  /** The spawner's result is on the grid and free whenever the listing is
      non-empty; the listing is empty only when no grid cell is free, and
      then the fallback cell comes back. */
  lemma SpawnedAppleIsFree(body: seq<Position>, obstacles: seq<Position>, roll: Roll)
    ensures var a := PickApple(FreeCells(body, obstacles), roll);
      && (|FreeCells(body, obstacles)| > 0 ==> InGrid(a) && IsFree(a, body, obstacles))
      && (|FreeCells(body, obstacles)| == 0 ==>
            a == FALLBACK_APPLE && forall p :: InGrid(p) ==> !IsFree(p, body, obstacles))
  {
    var free := FreeCells(body, obstacles);
    var a := PickApple(free, roll);
    if |free| > 0 {
      FreeCellsMembers(body, obstacles, a);
    } else {
      forall p | InGrid(p) ensures !IsFree(p, body, obstacles) {
        FreeCellsMembers(body, obstacles, p);
      }
    }
  }

  /** spawnApple: list the free cells with two nested loops, then pick one at
      the position the roll selects, or the fallback cell if there is none. */
  method SpawnApple(body: seq<Position>, obstacles: seq<Position>, roll: Roll) returns (apple: Position)
    ensures apple == PickApple(FreeCells(body, obstacles), roll)
  {
    var available: seq<Position> := [];
    ghost var cells := GridCells();
    var x := 0;
    while x < GRID_SIZE
      invariant 0 <= x <= GRID_SIZE
      invariant available == FreeAmong(cells[..x * GRID_SIZE], body, obstacles)
    {
      var y := 0;
      while y < GRID_SIZE
        invariant 0 <= y <= GRID_SIZE
        invariant available == FreeAmong(cells[..x * GRID_SIZE + y], body, obstacles)
      {
        CellAtIndex(x, y);
        ghost var k := x * GRID_SIZE + y;
        assert cells[..k + 1][..k] == cells[..k];
        var isOccupiedByBody := Position(x, y) in body;
        var isOccupiedByObstacle := IsObstacle(x, y, obstacles);
        if !isOccupiedByBody && !isOccupiedByObstacle {
          available := available + [Position(x, y)];
        }
        y := y + 1;
      }
      x := x + 1;
    }
    assert cells[..GRID_SIZE * GRID_SIZE] == cells;
    if |available| > 0 {
      var randomIndex := RandomIndex(roll, |available|);
      apple := available[randomIndex];
    } else {
      apple := FALLBACK_APPLE;
    }
  }

  predicate TopRowOccupied(body: seq<Position>, x: int) {
    Position(x, 0) in body
  }

  /** A body shorter than k leaves one of the first k cells of the top row empty. */
  lemma {:induction false} TopRowPigeonhole(body: seq<Position>, k: int)
    requires |body| < k
    ensures exists x :: 0 <= x < k && !TopRowOccupied(body, x)
  {
    if !TopRowOccupied(body, k - 1) {
    } else {
      var i :| 0 <= i < |body| && body[i] == Position(k - 1, 0);
      var rest := body[..i] + body[i + 1..];
      assert forall j :: 0 <= j < |body| && j != i ==> body[j] in rest by {
        forall j | 0 <= j < |body| && j != i ensures body[j] in rest {
          if j < i {
            assert rest[j] == body[j];
          } else {
            assert rest[j - 1] == body[j];
          }
        }
      }
      TopRowPigeonhole(rest, k - 1);
      var x :| 0 <= x < k - 1 && !TopRowOccupied(rest, x);
      assert !TopRowOccupied(body, x);
    }
  }

  /** A body shorter than the grid's width always leaves a free cell when the
      obstacles keep off the top row, so the spawner never falls back. */
  lemma FreeCellExists(body: seq<Position>, obstacles: seq<Position>)
    requires |body| < GRID_SIZE
    requires forall p :: p in obstacles ==> p.y > 0
    ensures |FreeCells(body, obstacles)| > 0
  {
    TopRowPigeonhole(body, GRID_SIZE);
    var x :| 0 <= x < GRID_SIZE && !TopRowOccupied(body, x);
    var p := Position(x, 0);
    FreeCellsMembers(body, obstacles, p);
  }

  // ---------------------------------------------------------------- speed

  function MaxReal(a: real, b: real): real { if a >= b then a else b }

  /** The tick interval after a non-final apple: 5 ms shorter, never below 80 ms. */
  function SpeedAfterApple(speed: real): (r: real)
    ensures MIN_SPEED <= r
    ensures r == speed - SPEED_INCREMENT || r == MIN_SPEED
    ensures speed >= MIN_SPEED ==> r <= speed
  {
    MaxReal(MIN_SPEED, speed - SPEED_INCREMENT)
  }

  /** The interval after n apples in a row within one level. */
  function SpeedAfterApples(speed: real, n: nat): real {
    if n == 0 then speed else SpeedAfterApple(SpeedAfterApples(speed, n - 1))
  }

  /** Repeated apples shorten the interval by 5 ms each, down to the 80 ms floor
      and never below it. This is a fact about the speed rule alone; that each
      non-final apple move applies the rule once is `MoveEatsApple`. */
  lemma {:induction false} SpeedAfterApplesClosedForm(speed: real, n: nat)
    requires speed >= MIN_SPEED
    ensures SpeedAfterApples(speed, n) == MaxReal(MIN_SPEED, speed - n as real * SPEED_INCREMENT)
  {
    if n > 0 {
      SpeedAfterApplesClosedForm(speed, n - 1);
    }
  }

  /** The interval a new level starts with: 150 ms less 5 ms per apple of the
      run's score, divided by the level's multiplier, never below 80 ms. */
  function LevelStartSpeed(score: int, multiplier: real): (r: real)
    requires score >= 0 && multiplier >= 1.0
    ensures MIN_SPEED <= r <= INITIAL_SPEED
  {
    var baseSpeed := INITIAL_SPEED - (score as real / APPLE_POINTS as real) * SPEED_INCREMENT;
    var scaled := baseSpeed / multiplier;
    MaxReal(MIN_SPEED, scaled)
  }

  // ---------------------------------------------------------------- keys

  /** What the game does for a request, from a key or from a button. */
  datatype Action = StartGame | NextLevel | RestartGame | PauseGame | ResumeGame
                  | ChangeDirection(d: Direction) | NoAction

  predicate IsConfirmKey(key: string) {
    key == "Enter" || key == " "
  }

  predicate IsPauseKey(key: string) {
    key == "Escape" || key == "p" || key == "P"
  }

  /** The arrow keys and w/a/s/d in either case. */
  predicate IsDirectionKey(key: string) {
    key in {"ArrowUp", "w", "W", "ArrowDown", "s", "S", "ArrowLeft", "a", "A", "ArrowRight", "d", "D"}
  }

  /** The key handler's table from the current mode and a key to an action. */
  function KeyAction(state: GameState, key: string): (a: Action)
    ensures a == StartGame <==> state == Start && IsConfirmKey(key)
    ensures a == NextLevel <==> state == LevelComplete && IsConfirmKey(key)
    ensures a == RestartGame <==> state == GameOver && IsConfirmKey(key)
    ensures a == PauseGame <==> state == Playing && IsPauseKey(key)
    ensures a == ResumeGame <==> state == Paused && IsPauseKey(key)
    ensures a.ChangeDirection? ==> state == Playing && IsDirectionKey(key)
    ensures state == Playing && (key == "ArrowUp" || key == "w" || key == "W") ==> a == ChangeDirection(Up)
    ensures state == Playing && (key == "ArrowDown" || key == "s" || key == "S") ==> a == ChangeDirection(Down)
    ensures state == Playing && (key == "ArrowLeft" || key == "a" || key == "A") ==> a == ChangeDirection(Left)
    ensures state == Playing && (key == "ArrowRight" || key == "d" || key == "D") ==> a == ChangeDirection(Right)
  {
    if state == Start then
      if IsConfirmKey(key) then StartGame else NoAction
    else if state == LevelComplete then
      if IsConfirmKey(key) then NextLevel else NoAction
    else if state == GameOver then
      if IsConfirmKey(key) then RestartGame else NoAction
    else if IsPauseKey(key) then
      if state == Playing then PauseGame
      else if state == Paused then ResumeGame
      else NoAction
    else if state != Playing then NoAction
    else if key == "ArrowUp" || key == "w" || key == "W" then ChangeDirection(Up)
    else if key == "ArrowDown" || key == "s" || key == "S" then ChangeDirection(Down)
    else if key == "ArrowLeft" || key == "a" || key == "A" then ChangeDirection(Left)
    else if key == "ArrowRight" || key == "d" || key == "D" then ChangeDirection(Right)
    else NoAction
  }

  // ---------------------------------------------------------------- catalog facts

  /** The start body is well formed against every level's obstacles. */
  lemma StartBodyFitsEveryLevel(i: int)
    requires 0 <= i < |LEVELS|
    ensures WellFormedBody(START_BODY, LEVELS[i].obstacles)
  {
    ObstaclesMissStartBody(i);
    StartBodyFits(LEVELS[i].obstacles);
  }

  lemma ObstaclesMissStartBody(i: int)
    requires 0 <= i < |LEVELS|
    ensures NoneOn(START_BODY, LEVELS[i].obstacles)
  {
    if i == 1 {
      Level2MissesStartBody();
    } else if i == 2 {
      Level3MissesStartBody();
    } else if i == 3 {
      Level4MissesStartBody();
    } else if i == 4 {
      Level5MissesStartBody();
    }
  }

  // One lemma per obstacle list, so each list is checked on its own.
  lemma Level2MissesStartBody() ensures NoneOn(START_BODY, Level2Obstacles) {}
  lemma Level3MissesStartBody() ensures NoneOn(START_BODY, Level3Obstacles) {}
  lemma Level4MissesStartBody() ensures NoneOn(START_BODY, Level4Obstacles) {}
  lemma Level5MissesStartBody() ensures NoneOn(START_BODY, Level5Obstacles) {}

  lemma StartBodyFits(obstacles: seq<Position>)
    requires NoneOn(START_BODY, obstacles)
    ensures WellFormedBody(START_BODY, obstacles)
  {
  }

  /** True iff no obstacle lies on any of the cells. */
  predicate NoneOn(cells: seq<Position>, obstacles: seq<Position>) {
    forall j :: 0 <= j < |obstacles| ==> obstacles[j] !in cells
  }

  /** The fallback cell is not free in general: it is an obstacle of level 5. */
  lemma FallbackIsLevel5Obstacle()
    ensures IsObstacle(FALLBACK_APPLE.x, FALLBACK_APPLE.y, LEVELS[4].obstacles)
  {
  }
}
