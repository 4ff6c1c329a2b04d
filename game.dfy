/** The game hook as an object: the state it keeps and the handlers that
    update it in place, each verified against the session functions and
    each keeping the session invariant. */
module ShankGame {
  import opened Levels
  import opened ShankRules
  import opened ShankSession

  class Game {
    var gameState: GameState
    var currentLevel: int
    var applesEaten: int
    var shankBody: seq<Position>
    var direction: Direction
    var nextDirection: Direction
    var apple: Position
    var score: int
    var bestScore: int
    var speed: real
    var lastUpdate: int

    /** The fields as one session value. */
    function Snapshot(): Session
      reads this
    {
      Session(gameState, currentLevel, applesEaten, shankBody, direction, nextDirection,
              apple, score, bestScore, speed, lastUpdate)
    }

    ghost predicate Valid()
      reads this
    {
      Inv(Snapshot())
    }

    /** The hook's initial state; `storedBest` is the best score found in
        storage, 0 when there was none. */
    constructor (storedBest: nat)
      ensures Snapshot() == Initial(storedBest) && Valid()
    {
      gameState := Start;
      currentLevel := 1;
      applesEaten := 0;
      shankBody := START_BODY;
      direction := Right;
      nextDirection := Right;
      apple := INITIAL_APPLE;
      score := 0;
      bestScore := storedBest;
      speed := INITIAL_SPEED;
      lastUpdate := 0;
    }

    /** Applies the updates a handler scheduled, all at once, as React does
        when it renders after the handler. */
    method Commit(next: Session)
      modifies this
      ensures Snapshot() == next
    {
      gameState := next.gameState;
      currentLevel := next.currentLevel;
      applesEaten := next.applesEaten;
      shankBody := next.shankBody;
      direction := next.direction;
      nextDirection := next.nextDirection;
      apple := next.apple;
      score := next.score;
      bestScore := next.bestScore;
      speed := next.speed;
      lastUpdate := next.lastUpdate;
    }

    /** moveShank: build the new body in front of the old one, then either
        stop on a collision, grow on the apple, or pop the tail. In every
        case the direction moved becomes the current direction. */
    method MoveShank(roll: Roll)
      requires |shankBody| >= 1
      modifies this
      ensures Snapshot() == AfterMove(old(Snapshot()), roll)
    {
      var current := Snapshot();
      var levelConfig := GetLevelConfig(currentLevel);
      var head := shankBody[0];
      var newHead := NextHead(head, nextDirection);
      var collided := CheckCollision(newHead, shankBody, levelConfig.obstacles);
      if collided {
        MoveCollides(current, roll);
        Commit(current.(gameState := GameOver, direction := nextDirection));
        return;
      }
      var newBody := [newHead] + shankBody;
      if newHead == apple {
        var newScore := score + APPLE_POINTS;
        var newApplesEaten := applesEaten + 1;
        var newBest := if newScore > bestScore then newScore else bestScore;
        var eaten := current.(
          shankBody := newBody, score := newScore, applesEaten := newApplesEaten, bestScore := newBest);
        if newApplesEaten >= levelConfig.targetApples {
          MoveCompletesLevel(current, roll, newBody);
          Commit(eaten.(gameState := LevelComplete, direction := nextDirection));
          return;
        }
        var newApple := SpawnApple(newBody, levelConfig.obstacles, roll);
        var newSpeed := SpeedAfterApple(speed);
        MoveEatsApple(current, roll, newBody, newApple);
        Commit(eaten.(apple := newApple, speed := newSpeed, direction := nextDirection));
      } else {
        newBody := newBody[..|newBody| - 1];
        MoveSlides(current, roll, newBody);
        Commit(current.(shankBody := newBody, direction := nextDirection));
      }
    }

    /** gameLoop: one animation frame at `timestamp`. Frames are delivered
        only while playing; `rescheduled` tells whether another one is
        requested. */
    method GameLoop(timestamp: int, roll: Roll) returns (moved: bool, rescheduled: bool)
      requires Valid()
      modifies this
      ensures (Snapshot(), moved) == AfterFrame(old(Snapshot()), timestamp, roll)
      ensures rescheduled <==> gameState == Playing
      ensures Valid()
    {
      FramePreservesInv(Snapshot(), timestamp, roll);
      moved := false;
      if gameState == Playing {
        if lastUpdate == 0 {
          lastUpdate := timestamp;
        }
        var elapsed := timestamp - lastUpdate;
        if elapsed as real >= speed {
          MoveShank(roll);
          lastUpdate := timestamp;
          moved := true;
        }
      }
      rescheduled := gameState == Playing;
    }

    /** startGame: a fresh run on level 1; entering play resets the frame
        baseline. */
    method StartGame(roll: Roll)
      requires bestScore >= 0
      modifies this
      ensures Snapshot() == AfterStart(old(Snapshot()), roll)
      ensures Valid()
    {
      StartEstablishesInv(Snapshot(), roll);
      var initialBody := START_BODY;
      var level1Config := GetLevelConfig(1);
      var newApple := SpawnApple(initialBody, level1Config.obstacles, roll);
      Commit(Snapshot().(
        shankBody := initialBody,
        direction := Right,
        nextDirection := Right,
        apple := newApple,
        score := 0,
        applesEaten := 0,
        currentLevel := 1,
        speed := INITIAL_SPEED,
        gameState := Playing,
        lastUpdate := 0));
    }

    /** nextLevel: advance to the next level, or end the run after the last. */
    method NextLevel(roll: Roll)
      requires Valid()
      modifies this
      ensures Snapshot() == AfterNextLevel(old(Snapshot()), roll)
      ensures Valid()
    {
      NextLevelPreservesInv(Snapshot(), roll);
      var newLevel := currentLevel + 1;
      if newLevel > |LEVELS| {
        gameState := GameOver;
        return;
      }
      var current := Snapshot();
      var newLevelConfig := GetLevelConfig(newLevel);
      var initialBody := START_BODY;
      var newApple := SpawnApple(initialBody, newLevelConfig.obstacles, roll);
      LevelParametersInRange(newLevel);
      var newSpeed := LevelStartSpeed(score, newLevelConfig.speedMultiplier);
      NextLevelEntered(current, roll);
      Commit(current.(
        currentLevel := newLevel,
        applesEaten := 0,
        shankBody := initialBody,
        direction := Right,
        nextDirection := Right,
        apple := newApple,
        speed := newSpeed,
        gameState := Playing,
        lastUpdate := 0));
    }

    method PauseGame()
      requires Valid()
      modifies this
      ensures Snapshot() == AfterPause(old(Snapshot()))
      ensures Valid()
    {
      if gameState == Playing {
        gameState := Paused;
      }
    }

    method ResumeGame()
      requires Valid()
      modifies this
      ensures Snapshot() == AfterResume(old(Snapshot()))
      ensures Valid()
    {
      if gameState == Paused {
        gameState := Playing;
        lastUpdate := 0;
      }
    }

    /** restartGame is exactly startGame. */
    method RestartGame(roll: Roll)
      requires Valid()
      modifies this
      ensures Snapshot() == AfterStart(old(Snapshot()), roll)
      ensures Valid()
    {
      StartGame(roll);
    }

    method ChangeDirection(newDirection: Direction)
      requires Valid()
      modifies this
      ensures Snapshot() == AfterChangeDirection(old(Snapshot()), newDirection)
      ensures Valid()
    {
      if gameState != Playing {
        return;
      }
      if Opposite(direction) != newDirection {
        nextDirection := newDirection;
      }
    }

    /** The keydown handler: dispatch the table's action for the current mode. */
    method HandleKey(key: string, roll: Roll)
      requires Valid()
      modifies this
      ensures Snapshot() == AfterKey(old(Snapshot()), key, roll)
      ensures Valid()
    {
      match KeyAction(gameState, key)
      case StartGame => StartGame(roll);
      case NextLevel => NextLevel(roll);
      case RestartGame => RestartGame(roll);
      case PauseGame => PauseGame();
      case ResumeGame => ResumeGame();
      case ChangeDirection(d) => ChangeDirection(d);
      case NoAction =>
    }
  }
}
