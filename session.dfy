/** The game hook's state as a value, its invariant, and the effect of every
    handler and of one animation frame on it. The class in ShankGame is
    verified against these functions. */
module ShankSession {
  import opened Levels
  import opened ShankRules

  /** Everything the hook keeps between renders. `lastUpdate` is the frame
      timestamp of the last move, 0 while no baseline has been taken. */
  datatype Session = Session(
    gameState: GameState,
    currentLevel: int,
    applesEaten: int,
    shankBody: seq<Position>,
    direction: Direction,
    nextDirection: Direction,
    apple: Position,
    score: int,
    bestScore: int,
    speed: real,
    lastUpdate: int)

  /** The apple shown before the first run starts. */
  const INITIAL_APPLE: Position := Position(15, 10)

  /** The configuration of the session's current level. */
  function Config(s: Session): LevelConfig {
    GetLevelConfig(s.currentLevel)
  }

  /** What holds of every state the hook can reach. */
  predicate Inv(s: Session) {
    && 1 <= s.currentLevel <= |LEVELS|
    && 0 <= s.applesEaten <= Config(s).targetApples
    && |s.shankBody| == |START_BODY| + s.applesEaten
    && WellFormedBody(s.shankBody, Config(s).obstacles)
    && 0 <= s.score <= s.bestScore
    && s.score % APPLE_POINTS == 0
    && MIN_SPEED <= s.speed <= INITIAL_SPEED
    && s.nextDirection != Opposite(s.direction)
    && (s.gameState == LevelComplete ==> s.applesEaten == Config(s).targetApples)
    && (s.gameState == Start || s.gameState == Playing || s.gameState == Paused ==>
          && s.applesEaten < Config(s).targetApples
          && InGrid(s.apple)
          && IsFree(s.apple, s.shankBody, Config(s).obstacles))
  }

  /** The state when the hook mounts; `storedBest` is the best score read
      from storage (0 when none was stored). */
  function Initial(storedBest: nat): (s: Session)
    ensures Inv(s) && s.gameState == Start && s.score == 0 && s.bestScore == storedBest
  {
    StartBodyFitsEveryLevel(0);
    Session(Start, 1, 0, START_BODY, Right, Right, INITIAL_APPLE, 0, storedBest, INITIAL_SPEED, 0)
  }

  // ---------------------------------------------------------------- one move

  /** moveShank: one movement step plus its bookkeeping. A collision ends the
      game and keeps the body; an apple scores 10, counts one apple, raises
      the best score, and either completes the level (no respawn, no speed
      change) or respawns the apple and shortens the interval. The direction
      actually moved becomes the current direction in every case. */
  function AfterMove(s: Session, roll: Roll): (r: Session)
    requires |s.shankBody| >= 1
    ensures r.direction == s.nextDirection && r.nextDirection == s.nextDirection
    ensures r.currentLevel == s.currentLevel && r.lastUpdate == s.lastUpdate
    ensures r.score == s.score || r.score == s.score + APPLE_POINTS
    ensures r.score == s.score + APPLE_POINTS <==> r.applesEaten == s.applesEaten + 1
    ensures r.score == s.score ==> r.applesEaten == s.applesEaten && r.bestScore == s.bestScore
    ensures r.bestScore >= s.bestScore && (r.score != s.score ==> r.bestScore >= r.score)
    ensures r.gameState != s.gameState ==> (r.gameState == GameOver || r.gameState == LevelComplete)
    ensures r.gameState != s.gameState ==> r.apple == s.apple && r.speed == s.speed
    ensures r.gameState == GameOver && s.gameState != GameOver ==> r.shankBody == s.shankBody
  {
    var obstacles := Config(s).obstacles;
    var moved := s.(direction := s.nextDirection);
    match Step(s.shankBody, s.nextDirection, s.apple, obstacles)
    case Collision =>
      moved.(gameState := GameOver)
    case Moved(body, ate) =>
      if !ate then
        moved.(shankBody := body)
      else
        var newScore := s.score + APPLE_POINTS;
        var newApplesEaten := s.applesEaten + 1;
        var eaten := moved.(
          shankBody := body,
          score := newScore,
          applesEaten := newApplesEaten,
          bestScore := if newScore > s.bestScore then newScore else s.bestScore);
        if newApplesEaten >= Config(s).targetApples then
          eaten.(gameState := LevelComplete)
        else
          eaten.(apple := PickApple(FreeCells(body, obstacles), roll), speed := SpeedAfterApple(s.speed))
  }

  /** Every move from a playing state keeps the invariant: the body stays
      well formed, the apple count stays within the target, and a respawned
      apple lands on a free cell because a body of at most 18 segments
      always leaves part of the top row free. */
  lemma MovePreservesInv(s: Session, roll: Roll)
    requires Inv(s) && s.gameState == Playing
    ensures Inv(AfterMove(s, roll))
  {
    var obstacles := Config(s).obstacles;
    var o := Step(s.shankBody, s.nextDirection, s.apple, obstacles);
    if o.Moved? {
      StepKeepsBodyWellFormed(s.shankBody, s.nextDirection, s.apple, obstacles);
      if !o.ate {
        StepKeepsAppleOffBody(s.shankBody, s.nextDirection, s.apple, obstacles);
        SlidePreservesInv(s, roll);
      } else if s.applesEaten + 1 < Config(s).targetApples {
        EatPreservesInv(s, roll);
      }
    }
  }

  /** A move that neither collides nor eats keeps the invariant. */
  lemma SlidePreservesInv(s: Session, roll: Roll)
    requires Inv(s) && s.gameState == Playing
    requires var o := Step(s.shankBody, s.nextDirection, s.apple, Config(s).obstacles);
      o.Moved? && !o.ate && WellFormedBody(o.body, Config(s).obstacles) && s.apple !in o.body
    ensures Inv(AfterMove(s, roll))
  {
  }

  /** A move that eats a non-final apple keeps the invariant: the grown body
      has at most 18 segments, so part of the top row is free and the new
      apple lands on a free cell. */
  lemma EatPreservesInv(s: Session, roll: Roll)
    requires Inv(s) && s.gameState == Playing
    requires s.applesEaten + 1 < Config(s).targetApples
    requires var o := Step(s.shankBody, s.nextDirection, s.apple, Config(s).obstacles);
      o.Moved? && o.ate && WellFormedBody(o.body, Config(s).obstacles)
    ensures Inv(AfterMove(s, roll))
  {
    var obstacles := Config(s).obstacles;
    var o := Step(s.shankBody, s.nextDirection, s.apple, obstacles);
    LevelParametersInRange(s.currentLevel);
    ObstaclesOnGrid(s.currentLevel - 1);
    FreeCellExists(o.body, obstacles);
    SpawnedAppleIsFree(o.body, obstacles, roll);
    MoveEatsApple(s, roll, o.body, PickApple(FreeCells(o.body, obstacles), roll));
    GrownStateInv(s, o.body, AfterMove(s, roll), roll);
  }

  /** The state after eating a non-final apple keeps the invariant once the
      grown body is known to be well formed and the new apple to be free. */
  lemma GrownStateInv(s: Session, body: seq<Position>, r: Session, roll: Roll)
    requires Inv(s) && s.gameState == Playing
    requires s.applesEaten + 1 < Config(s).targetApples
    requires |body| == |s.shankBody| + 1 && WellFormedBody(body, Config(s).obstacles)
    requires var a := PickApple(FreeCells(body, Config(s).obstacles), roll);
      InGrid(a) && IsFree(a, body, Config(s).obstacles)
    requires var newScore := s.score + APPLE_POINTS;
      r == s.(
        direction := s.nextDirection,
        shankBody := body,
        score := newScore,
        applesEaten := s.applesEaten + 1,
        bestScore := if newScore > s.bestScore then newScore else s.bestScore,
        apple := PickApple(FreeCells(body, Config(s).obstacles), roll),
        speed := SpeedAfterApple(s.speed))
    ensures Inv(r)
  {
  }

  // The state after a move in each of its four cases, field by field.

  /** A collision ends the game and leaves the body where it was. */
  lemma MoveCollides(s: Session, roll: Roll)
    requires |s.shankBody| >= 1
    requires Collides(NextHead(s.shankBody[0], s.nextDirection), s.shankBody, Config(s).obstacles)
    ensures AfterMove(s, roll) == s.(direction := s.nextDirection, gameState := GameOver)
  {
  }

  /** A free step that misses the apple moves every segment forward by one:
      the new head in front, the tail dropped. */
  lemma MoveSlides(s: Session, roll: Roll, body: seq<Position>)
    requires |s.shankBody| >= 1
    requires var head := NextHead(s.shankBody[0], s.nextDirection);
      && !Collides(head, s.shankBody, Config(s).obstacles) && head != s.apple
      && body == [head] + s.shankBody[..|s.shankBody| - 1]
    ensures AfterMove(s, roll) == s.(direction := s.nextDirection, shankBody := body)
  {
  }

  /** Eating the level's last apple grows the body onto the apple, scores,
      and completes the level without a respawn. */
  lemma MoveCompletesLevel(s: Session, roll: Roll, body: seq<Position>)
    requires |s.shankBody| >= 1
    requires var head := NextHead(s.shankBody[0], s.nextDirection);
      !Collides(head, s.shankBody, Config(s).obstacles) && head == s.apple
    requires s.applesEaten + 1 >= Config(s).targetApples
    requires body == [s.apple] + s.shankBody
    ensures var newScore := s.score + APPLE_POINTS;
      AfterMove(s, roll) == s.(
        direction := s.nextDirection,
        shankBody := body,
        score := newScore,
        applesEaten := s.applesEaten + 1,
        bestScore := if newScore > s.bestScore then newScore else s.bestScore,
        gameState := LevelComplete)
  {
  }

  /** Eating any other apple grows the body onto the apple, scores, puts the
      apple on the cell the roll picks among the free ones, and shortens the
      interval. */
  lemma MoveEatsApple(s: Session, roll: Roll, body: seq<Position>, newApple: Position)
    requires |s.shankBody| >= 1
    requires var head := NextHead(s.shankBody[0], s.nextDirection);
      !Collides(head, s.shankBody, Config(s).obstacles) && head == s.apple
    requires s.applesEaten + 1 < Config(s).targetApples
    requires body == [s.apple] + s.shankBody
    requires newApple == PickApple(FreeCells(body, Config(s).obstacles), roll)
    ensures var newScore := s.score + APPLE_POINTS;
      AfterMove(s, roll) == s.(
        direction := s.nextDirection,
        shankBody := body,
        score := newScore,
        applesEaten := s.applesEaten + 1,
        bestScore := if newScore > s.bestScore then newScore else s.bestScore,
        apple := newApple,
        speed := SpeedAfterApple(s.speed))
  {
  }

  /** When the qualifying apple is eaten the level completes with exactly
      the target count, the grown body and the apple left where it was. */
  lemma LastAppleCompletesLevel(s: Session, roll: Roll)
    requires Inv(s) && s.gameState == Playing
    requires s.applesEaten == Config(s).targetApples - 1
    requires NextHead(s.shankBody[0], s.nextDirection) == s.apple
    ensures var r := AfterMove(s, roll);
      && r.gameState == LevelComplete
      && r.applesEaten == Config(s).targetApples
      && r.shankBody == [s.apple] + s.shankBody
      && r.apple == s.apple && r.speed == s.speed
  {
    var obstacles := Config(s).obstacles;
    assert !Collides(s.apple, s.shankBody, obstacles) by {
      assert s.apple !in s.shankBody;
    }
  }

  /** From the start body on level 1, eating the apple straight ahead grows
      the body to four segments with the tail kept, scores 10, and leaves the
      new apple on a free cell off the grown body. */
  lemma StartGrowScenario(s: Session, roll: Roll)
    requires Inv(s) && s.gameState == Playing && s.currentLevel == 1 && s.score == 0
    requires s.shankBody == START_BODY && s.nextDirection == Right && s.apple == Position(11, 10)
    ensures var r := AfterMove(s, roll);
      && r.gameState == Playing
      && r.shankBody == [Position(11, 10), Position(10, 10), Position(9, 10), Position(8, 10)]
      && r.score == 10 && r.applesEaten == 1
      && InGrid(r.apple) && r.apple !in r.shankBody
  {
    LevelLookupClamps(1);
    CatalogShape();
    MovePreservesInv(s, roll);
  }

  /** From the start body on level 1 with the apple elsewhere, a step right
      drops the tail and leaves the score alone. */
  lemma StartSlideScenario(s: Session, roll: Roll)
    requires Inv(s) && s.gameState == Playing && s.currentLevel == 1
    requires s.shankBody == START_BODY && s.nextDirection == Right && s.apple != Position(11, 10)
    ensures var r := AfterMove(s, roll);
      && r.gameState == Playing
      && r.shankBody == [Position(11, 10), Position(10, 10), Position(9, 10)]
      && r.score == s.score && r.applesEaten == s.applesEaten
  {
    LevelLookupClamps(1);
    CatalogShape();
  }

  /** A head on the left wall moving left ends the game with the body as it was. */
  lemma WallScenario(s: Session, roll: Roll)
    requires |s.shankBody| >= 1 && s.shankBody[0].x == 0 && s.nextDirection == Left
    ensures AfterMove(s, roll).gameState == GameOver
    ensures AfterMove(s, roll).shankBody == s.shankBody
  {
  }

  /** Moves never reverse: the direction moved is never the opposite of the
      direction moved before, and within a level the interval never grows. */
  lemma MoveNeverReversesOrSlows(s: Session, roll: Roll)
    requires Inv(s)
    ensures AfterMove(s, roll).direction != Opposite(s.direction)
    ensures AfterMove(s, roll).speed <= s.speed
  {
  }

  // ---------------------------------------------------------------- frames

  /** gameLoop for one animation frame at time t, returning whether it moved.
      Frames arrive only while playing. The first frame after a reset of the
      baseline only records t; later frames move once when at least `speed`
      milliseconds have passed since the last move, never more than once. */
  function AfterFrame(s: Session, t: int, roll: Roll): (r: (Session, bool))
    requires |s.shankBody| >= 1
    ensures s.speed > 0.0 ==>
      (r.1 <==> s.gameState == Playing && s.lastUpdate != 0 && (t - s.lastUpdate) as real >= s.speed)
    ensures r.1 ==> r.0 == AfterMove(s.(lastUpdate := if s.lastUpdate == 0 then t else s.lastUpdate), roll).(lastUpdate := t)
    ensures !r.1 ==> r.0 == s.(lastUpdate := if s.gameState == Playing && s.lastUpdate == 0 then t else s.lastUpdate)
  {
    if s.gameState != Playing then (s, false)
    else
      var baseline := if s.lastUpdate == 0 then t else s.lastUpdate;
      var elapsed := t - baseline;
      if elapsed as real >= s.speed then
        (AfterMove(s.(lastUpdate := baseline), roll).(lastUpdate := t), true)
      else
        (s.(lastUpdate := baseline), false)
  }

  /** The first frame after entering play never moves: it only takes the
      baseline, since the interval is always positive. */
  lemma FirstFrameOnlyTakesBaseline(s: Session, t: int, roll: Roll)
    requires Inv(s) && s.gameState == Playing && s.lastUpdate == 0
    ensures AfterFrame(s, t, roll) == (s.(lastUpdate := t), false)
  {
  }

  lemma FramePreservesInv(s: Session, t: int, roll: Roll)
    requires Inv(s)
    ensures Inv(AfterFrame(s, t, roll).0)
  {
    if AfterFrame(s, t, roll).1 {
      var baseline := if s.lastUpdate == 0 then t else s.lastUpdate;
      MovePreservesInv(s.(lastUpdate := baseline), roll);
    }
  }

  // ---------------------------------------------------------------- handlers

  /** startGame (and restartGame, which only calls it): a fresh run on level 1
      with the start body heading right, score 0 and the initial interval;
      the best score is kept. */
  function AfterStart(s: Session, roll: Roll): (r: Session)
    ensures r.gameState == Playing && r.currentLevel == 1 && r.lastUpdate == 0
    ensures r.score == 0 && r.applesEaten == 0 && r.bestScore == s.bestScore
    ensures r.shankBody == START_BODY && r.direction == Right && r.nextDirection == Right
    ensures r.speed == INITIAL_SPEED
  {
    var initialBody := START_BODY;
    var level1Config := GetLevelConfig(1);
    s.(shankBody := initialBody,
       direction := Right,
       nextDirection := Right,
       apple := PickApple(FreeCells(initialBody, level1Config.obstacles), roll),
       score := 0,
       applesEaten := 0,
       currentLevel := 1,
       speed := INITIAL_SPEED,
       gameState := Playing,
       lastUpdate := 0)
  }

  /** A start from any state with a non-negative best score yields a valid
      playing state whose apple is free. */
  lemma StartEstablishesInv(s: Session, roll: Roll)
    requires s.bestScore >= 0
    ensures Inv(AfterStart(s, roll))
  {
    var r := AfterStart(s, roll);
    StartBodyFitsEveryLevel(0);
    FreeCellExists(START_BODY, LEVELS[0].obstacles);
    SpawnedAppleIsFree(START_BODY, LEVELS[0].obstacles, roll);
  }

  /** nextLevel: past the last level the run ends (GAME_OVER) and nothing
      else changes; otherwise the next level starts from the start body with
      no apples eaten, the score kept, and an interval derived from the score
      and the new level's multiplier. */
  function AfterNextLevel(s: Session, roll: Roll): (r: Session)
    requires s.score >= 0
    ensures s.currentLevel + 1 > |LEVELS| ==> r == s.(gameState := GameOver)
    ensures s.currentLevel + 1 <= |LEVELS| ==>
      && r.gameState == Playing && r.currentLevel == s.currentLevel + 1 && r.lastUpdate == 0
      && r.applesEaten == 0 && r.score == s.score && r.bestScore == s.bestScore
      && r.shankBody == START_BODY && r.direction == Right && r.nextDirection == Right
      && MIN_SPEED <= r.speed <= INITIAL_SPEED
  {
    var newLevel := s.currentLevel + 1;
    if newLevel > |LEVELS| then
      s.(gameState := GameOver)
    else
      var newLevelConfig := GetLevelConfig(newLevel);
      var initialBody := START_BODY;
      LevelParametersInRange(newLevel);
      s.(currentLevel := newLevel,
         applesEaten := 0,
         shankBody := initialBody,
         direction := Right,
         nextDirection := Right,
         apple := PickApple(FreeCells(initialBody, newLevelConfig.obstacles), roll),
         speed := LevelStartSpeed(s.score, newLevelConfig.speedMultiplier),
         gameState := Playing,
         lastUpdate := 0)
  }

  /** The state after advancing to an existing next level, field by field. */
  lemma NextLevelEntered(s: Session, roll: Roll)
    requires s.score >= 0 && s.currentLevel + 1 <= |LEVELS|
    requires GetLevelConfig(s.currentLevel + 1).speedMultiplier >= 1.0
    ensures var c := GetLevelConfig(s.currentLevel + 1);
      AfterNextLevel(s, roll) == s.(
        currentLevel := s.currentLevel + 1,
        applesEaten := 0,
        shankBody := START_BODY,
        direction := Right,
        nextDirection := Right,
        apple := PickApple(FreeCells(START_BODY, c.obstacles), roll),
        speed := LevelStartSpeed(s.score, c.speedMultiplier),
        gameState := Playing,
        lastUpdate := 0)
  {
  }

  lemma NextLevelPreservesInv(s: Session, roll: Roll)
    requires Inv(s)
    ensures Inv(AfterNextLevel(s, roll))
  {
    if s.currentLevel + 1 <= |LEVELS| {
      var i := s.currentLevel;
      var obstacles := LEVELS[i].obstacles;
      CatalogShape();
      StartBodyFitsEveryLevel(i);
      ObstaclesOnGrid(i);
      FreeCellExists(START_BODY, obstacles);
      SpawnedAppleIsFree(START_BODY, obstacles, roll);
      EnterLevelPreservesInv(s, roll);
    }
  }

  /** Entering a next level keeps the invariant once the start body is known
      to fit it and the spawned apple to be free. */
  lemma EnterLevelPreservesInv(s: Session, roll: Roll)
    requires Inv(s) && s.currentLevel < |LEVELS|
    requires var c := LEVELS[s.currentLevel];
      && c.targetApples > 0
      && WellFormedBody(START_BODY, c.obstacles)
      && var a := PickApple(FreeCells(START_BODY, c.obstacles), roll);
         InGrid(a) && IsFree(a, START_BODY, c.obstacles)
    ensures Inv(AfterNextLevel(s, roll))
  {
  }

  /** pauseGame: PLAYING becomes PAUSED; any other state is left alone. */
  function AfterPause(s: Session): (r: Session)
    ensures s.gameState == Playing ==> r == s.(gameState := Paused)
    ensures s.gameState != Playing ==> r == s
  {
    if s.gameState == Playing then s.(gameState := Paused) else s
  }

  /** resumeGame: PAUSED becomes PLAYING with a fresh frame baseline; any
      other state is left alone. */
  function AfterResume(s: Session): (r: Session)
    ensures s.gameState == Paused ==> r == s.(gameState := Playing, lastUpdate := 0)
    ensures s.gameState != Paused ==> r == s
  {
    if s.gameState == Paused then s.(gameState := Playing, lastUpdate := 0) else s
  }

  /** Pausing and resuming returns to the same game, with only the frame
      baseline reset. */
  lemma PauseThenResume(s: Session)
    requires s.gameState == Playing
    ensures AfterResume(AfterPause(s)) == s.(lastUpdate := 0)
  {
  }

  /** changeDirection: only while playing, and never the reverse of the
      direction last moved; the request waits in `nextDirection`. */
  function AfterChangeDirection(s: Session, d: Direction): (r: Session)
    ensures r == s || r == s.(nextDirection := d)
    ensures r.nextDirection == d <==> s.nextDirection == d || (s.gameState == Playing && d != Opposite(s.direction))
    ensures s.nextDirection != Opposite(s.direction) ==> r.nextDirection != Opposite(r.direction)
  {
    if s.gameState != Playing then s
    else if Opposite(s.direction) != d then s.(nextDirection := d)
    else s
  }

  /** One request from the keyboard or a button. */
  function AfterAction(s: Session, a: Action, roll: Roll): (r: Session)
    requires s.score >= 0
  {
    match a
    case StartGame => AfterStart(s, roll)
    case RestartGame => AfterStart(s, roll)
    case NextLevel => AfterNextLevel(s, roll)
    case PauseGame => AfterPause(s)
    case ResumeGame => AfterResume(s)
    case ChangeDirection(d) => AfterChangeDirection(s, d)
    case NoAction => s
  }

  /** The key handler: the action the table gives for the current mode. */
  function AfterKey(s: Session, key: string, roll: Roll): Session
    requires s.score >= 0
  {
    AfterAction(s, KeyAction(s.gameState, key), roll)
  }

  lemma ActionPreservesInv(s: Session, a: Action, roll: Roll)
    requires Inv(s)
    ensures Inv(AfterAction(s, a, roll))
    ensures AfterAction(s, a, roll).bestScore == s.bestScore
  {
    match a
    case StartGame => StartEstablishesInv(s, roll);
    case RestartGame => StartEstablishesInv(s, roll);
    case NextLevel => NextLevelPreservesInv(s, roll);
    case PauseGame =>
    case ResumeGame =>
    case ChangeDirection(d) =>
    case NoAction =>
  }

  // ---------------------------------------------------------------- runs

  /** Whatever the host delivers: an animation frame, a key press, or a
      direct request from a button. Each carries the random draw that a
      respawn of the apple would use. */
  datatype Event = Frame(t: int, frameRoll: Roll) | Key(key: string, keyRoll: Roll) | Request(action: Action, requestRoll: Roll)

  function AfterEvent(s: Session, e: Event): (r: Session)
    requires Inv(s)
    ensures Inv(r)
    ensures r.bestScore >= s.bestScore
  {
    match e
    case Frame(t, roll) =>
      FramePreservesInv(s, t, roll);
      MoveBestScore(s.(lastUpdate := if s.lastUpdate == 0 then t else s.lastUpdate), roll);
      AfterFrame(s, t, roll).0
    case Key(key, roll) =>
      ActionPreservesInv(s, KeyAction(s.gameState, key), roll);
      AfterKey(s, key, roll)
    case Request(a, roll) =>
      ActionPreservesInv(s, a, roll);
      AfterAction(s, a, roll)
  }

  lemma MoveBestScore(s: Session, roll: Roll)
    requires |s.shankBody| >= 1
    ensures AfterMove(s, roll).bestScore >= s.bestScore
  {
  }

  /** Any sequence of events from a valid state: the invariant holds at the
      end (so the best score is never below the score, the apple count never
      exceeds the level's target, the interval stays within [80, 150] and
      the body stays well formed), and the best score never decreases. */
  function Run(s: Session, events: seq<Event>): (r: Session)
    requires Inv(s)
    ensures Inv(r)
    ensures r.bestScore >= s.bestScore
    decreases |events|
  {
    if events == [] then s else Run(AfterEvent(s, events[0]), events[1..])
  }

  /** Every run from mount keeps the best score at or above the score. */
  lemma BestScoreAtLeastScore(storedBest: nat, events: seq<Event>)
    ensures Run(Initial(storedBest), events).bestScore >= Run(Initial(storedBest), events).score
    ensures Run(Initial(storedBest), events).bestScore >= storedBest
  {
  }
}
