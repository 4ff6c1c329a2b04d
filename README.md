# Shank game engine in Dafny

This project models the game-state engine of the Shank browser game. A body of
cells ("shank") moves on a 20x20 grid. It eats apples to grow and score, and it
must avoid the walls, each level's obstacles and itself. The engine is a React
hook (`useShankGame.ts`). It keeps the session state, advances the body once
per animation frame when enough time has passed, spawns apples on free cells,
tracks score, best score, apples per level and speed, and runs the mode machine
START / PLAYING / PAUSED / GAME_OVER / LEVEL_COMPLETE from keyboard requests.
The project also models three smaller pieces:

- the five-level catalog with its clamping lookup (`levels.ts`);
- the skin sprite lookups with fallback and the persisted skin choice (`skins.ts`);
- the deployment domain validator (`validate-deploy-domain.mjs`).

Files:

- `levels.dfy` (module `Levels`): cells, the level catalog with its obstacle
  lists, `GetLevelConfig`, `IsObstacle`, and data lemmas about the catalog.
- `rules.dfy` (module `ShankRules`): the hook's pure parts. These are directions,
  the head offset, the collision test (`CheckCollision`, the source's loop),
  the movement step, the apple spawner (`SpawnApple`, the source's nested loops),
  the speed rules and the key table.
- `session.dfy` (module `ShankSession`): the hook state as a value (`Session`),
  its invariant `Inv`, and one function per handler and per animation frame
  (`AfterMove`, `AfterFrame`, `AfterStart`, `AfterNextLevel`, …). Lemmas show
  that each of them keeps `Inv`, and `Run` shows that any sequence of events
  from mount keeps it.
- `game.dfy` (module `ShankGame`): the class `Game` with the hook's fields. Each
  handler is a method whose `ensures` ties the new fields to the session
  function of the old ones.
- `skins.dfy` (module `Skins`): the skin tables, sprite lookup with fallback,
  and a `SkinStore` class for the key-value store.
- `deploy_domain.dfy` (module `DeployDomain`): JavaScript `trim`, and the
  empty / quote / pattern checks as a classification of the file contents.

React applies the state updates that a handler schedules together, when it
renders next. The class methods compute the new values first and then write
all fields at once (`Game.Commit`). `Math.random()` is a parameter `roll` with
0 <= roll < 1. Animation frames are events that carry an integer timestamp.

When the last apple of a level is eaten, the code neither respawns the
apple nor shortens the interval (useShankGame.ts:134-137), and the model
follows it.

## Model

| member | source | states |
|---|---|---|
| Levels.LevelLookupClamps | src/frontend/src/game/levels.ts:105-108 | a level number at or below 1 gives the first entry, one at or past 5 the last entry, and a number 1..5 the entry carrying that number; the lookup never leaves the catalog |
| Levels.IsObstacle | src/frontend/src/game/levels.ts:110-112 | true iff some obstacle has both coordinates of the cell |
| Levels.CatalogShape | src/frontend/src/game/levels.ts:67-103 | five entries numbered 1..5 in order; targets positive and strictly increasing; multipliers at least 1 and strictly increasing |
| Levels.LevelParametersInRange | src/frontend/src/game/levels.ts:67-108 | whatever number is looked up, the target lies in 1..15 and the multiplier is at least 1 |
| Levels.ObstaclesOnGrid | src/frontend/src/game/levels.ts:14-65 | every obstacle of every level lies on the 20x20 grid, below the top row |
| Levels.Level1HasNoObstacles | src/frontend/src/game/levels.ts:17 | level 1 has no obstacle cell |
| ShankRules.NextHead | src/frontend/src/game/useShankGame.ts:98-111 | the new head is exactly one grid step from the old head |
| ShankRules.Opposite | src/frontend/src/game/useShankGame.ts:250-255 | the opposite of a direction is a different direction |
| ShankRules.OppositeUndoesStep | src/frontend/src/game/useShankGame.ts:98-111 | a step followed by a step in the opposite direction returns to the start; opposite is an involution |
| ShankRules.CheckCollision | src/frontend/src/game/useShankGame.ts:75-91 | the loop reports a collision iff the head is off the grid, on an obstacle, or on a body segment at index 1 or later, the tail included |
| ShankRules.Step | src/frontend/src/game/useShankGame.ts:93-147 | a collision iff the collision test fires; otherwise the new head is one step in the direction, the body grows by one on the apple and keeps its length otherwise, and the rest of the body is a prefix of the old body |
| ShankRules.StepKeepsBodyWellFormed | src/frontend/src/game/useShankGame.ts:114-146 | a successful step keeps the body on the grid, off the obstacles, free of repeated cells, and adjacent segment to segment |
| ShankRules.StepKeepsAppleOffBody | src/frontend/src/game/useShankGame.ts:143-146 | an apple off the body stays off it after a step that does not eat it |
| ShankRules.MovingOntoTailCollides | src/frontend/src/game/useShankGame.ts:84-89 | moving onto the current tail is a collision, although the tail would have moved away |
| ShankRules.FreeAmongMembers | src/frontend/src/game/useShankGame.ts:59-67 | the listing of a scan keeps exactly the free cells of the scanned list |
| ShankRules.VisitedCells | src/frontend/src/game/useShankGame.ts:59-60 | the first k cells the nested loops visit are the grid cells with x*20+y below k |
| ShankRules.FreeCellsMembers | src/frontend/src/game/useShankGame.ts:57-67 | a cell is listed as available iff it is on the grid, off the body and off the obstacles |
| ShankRules.RandomIndex | src/frontend/src/game/useShankGame.ts:69 | Math.floor(roll * n) is a valid index into a list of n > 0 cells |
| ShankRules.PickApple | src/frontend/src/game/useShankGame.ts:68-72 | a non-empty listing yields one of its cells; an empty one yields the fallback (15, 10) |
| ShankRules.SpawnApple | src/frontend/src/game/useShankGame.ts:57-73 | the nested loops and the draw return the cell PickApple chooses from the free cells in visiting order |
| ShankRules.SpawnedAppleIsFree | src/frontend/src/game/useShankGame.ts:57-73 | the spawned apple is on the grid and free whenever any cell is free; otherwise no grid cell is free and the fallback comes back |
| ShankRules.TopRowPigeonhole | src/frontend/src/game/useShankGame.ts:59-67 | a body shorter than k leaves one of the first k top-row cells uncovered |
| ShankRules.FreeCellExists | src/frontend/src/game/useShankGame.ts:57-73 | with obstacles below the top row, a body shorter than 20 always leaves a free cell, so the fallback is never used |
| ShankRules.FallbackIsLevel5Obstacle | src/frontend/src/game/useShankGame.ts:72 | the fallback cell (15, 10) is an obstacle of level 5, so it is not free in general |
| ShankRules.SpeedAfterApple | src/frontend/src/game/useShankGame.ts:141 | the new interval is 5 ms shorter or the 80 ms floor, never below the floor, never longer than before |
| ShankRules.SpeedAfterApplesClosedForm | src/frontend/src/game/useShankGame.ts:141 | n applications of the apple speed rule give max(80, speed - 5n); each non-final apple move applies it once (MoveEatsApple) |
| ShankRules.LevelStartSpeed | src/frontend/src/game/useShankGame.ts:224-225 | the interval a new level starts with lies in [80, 150] for any score and multiplier at least 1 |
| ShankRules.KeyAction | src/frontend/src/game/useShankGame.ts:262-326 | Enter/space start in START, advance in LEVEL_COMPLETE and restart in GAME_OVER; Escape/p/P pause in PLAYING and resume in PAUSED; each of those iff; in PLAYING the arrow keys and w/a/s/d (either case) request the turn Up/Left/Down/Right, and a turn is requested only in PLAYING and only for one of those twelve keys, so every other key there does nothing |
| ShankRules.StartBodyFitsEveryLevel | src/frontend/src/game/levels.ts:17-65 | the start body (10,10), (9,10), (8,10) is well formed and misses every level's obstacles |
| ShankSession.Initial | src/frontend/src/game/useShankGame.ts:22-43 | the state at mount satisfies the invariant, is in START with score 0 and keeps the stored best score |
| ShankSession.AfterMove | src/frontend/src/game/useShankGame.ts:93-151 | the direction moved becomes the current direction; score rises by 10 exactly when one more apple is counted; the best score never drops and covers a raised score; the mode changes only to GAME_OVER or LEVEL_COMPLETE, and then apple and interval stay; a collision keeps the body |
| ShankSession.MovePreservesInv | src/frontend/src/game/useShankGame.ts:93-151 | every move from a playing state keeps the invariant: well-formed body of length 3 + apples, apples within the target, best at least score, interval in [80, 150], the apple on a free cell while playing |
| ShankSession.SlidePreservesInv | src/frontend/src/game/useShankGame.ts:143-147 | a move that neither collides nor eats keeps the invariant |
| ShankSession.EatPreservesInv | src/frontend/src/game/useShankGame.ts:122-142 | eating an apple that is not the level's last keeps the invariant; the respawned apple is free |
| ShankSession.GrownStateInv | src/frontend/src/game/useShankGame.ts:122-142 | the state after a non-final apple satisfies the invariant once the grown body is well formed and the new apple free |
| ShankSession.MoveCollides | src/frontend/src/game/useShankGame.ts:114-117 | on a collision only the mode (GAME_OVER) and the current direction change |
| ShankSession.MoveSlides | src/frontend/src/game/useShankGame.ts:143-147 | a free step off the apple puts the new head in front and drops the tail, nothing else changes but the direction |
| ShankSession.MoveCompletesLevel | src/frontend/src/game/useShankGame.ts:122-137 | eating the level's last apple grows the body, adds 10, counts the apple, raises the best score and completes the level, without respawn or speed change |
| ShankSession.MoveEatsApple | src/frontend/src/game/useShankGame.ts:122-142 | eating another apple grows the body, adds 10, counts the apple, raises the best score, respawns the apple and shortens the interval |
| ShankSession.LastAppleCompletesLevel | src/frontend/src/game/useShankGame.ts:134-137 | eating with one apple to go yields LEVEL_COMPLETE with exactly the target count, the grown body, and apple and interval unchanged |
| ShankSession.StartGrowScenario | src/frontend/src/game/useShankGame.ts:119-142 | from the start body with the apple at (11,10), one move right gives the body (11,10), (10,10), (9,10), (8,10), score 10, and a new apple off the body |
| ShankSession.StartSlideScenario | src/frontend/src/game/useShankGame.ts:143-147 | from the start body with the apple elsewhere, one move right gives (11,10), (10,10), (9,10) and the same score |
| ShankSession.WallScenario | src/frontend/src/game/useShankGame.ts:77-79 | a head at x = 0 moving left ends the game with the body unchanged |
| ShankSession.MoveNeverReversesOrSlows | src/frontend/src/game/useShankGame.ts:141-150 | the direction moved is never the reverse of the previous one, and a move never lengthens the interval |
| ShankSession.AfterFrame | src/frontend/src/game/useShankGame.ts:153-168 | a frame moves iff the game is playing, a baseline exists and at least `speed` ms have passed; a moving frame is exactly one AfterMove from the (possibly just taken) baseline, stamped with the frame time, so at most one move per frame; a frame that does not move takes the frame time as baseline when playing without one, and otherwise keeps the baseline, so the interval runs from the last move |
| ShankSession.FirstFrameOnlyTakesBaseline | src/frontend/src/game/useShankGame.ts:170-174 | the first frame after entering play only records its timestamp |
| ShankSession.FramePreservesInv | src/frontend/src/game/useShankGame.ts:153-168 | every frame keeps the invariant |
| ShankSession.AfterStart | src/frontend/src/game/useShankGame.ts:183-199 | a start gives PLAYING on level 1 with the start body heading right, score 0, no apples, interval 150, and keeps the best score |
| ShankSession.StartEstablishesInv | src/frontend/src/game/useShankGame.ts:183-199 | a start from any state with a non-negative best score satisfies the invariant, its apple free |
| ShankSession.AfterNextLevel | src/frontend/src/game/useShankGame.ts:201-228 | after the last level only the mode changes, to GAME_OVER; otherwise the next level starts in PLAYING with the start body, no apples, the score and best kept, and an interval in [80, 150] |
| ShankSession.NextLevelEntered | src/frontend/src/game/useShankGame.ts:209-227 | entering an existing next level sets exactly the fields the handler sets, with the apple drawn from that level's free cells |
| ShankSession.NextLevelPreservesInv | src/frontend/src/game/useShankGame.ts:201-228 | advancing keeps the invariant |
| ShankSession.EnterLevelPreservesInv | src/frontend/src/game/useShankGame.ts:209-227 | entering a level whose start body fits and whose apple is free keeps the invariant |
| ShankSession.AfterPause | src/frontend/src/game/useShankGame.ts:230-234 | PLAYING becomes PAUSED; any other state is unchanged |
| ShankSession.AfterResume | src/frontend/src/game/useShankGame.ts:236-240 | PAUSED becomes PLAYING with a fresh frame baseline; any other state is unchanged |
| ShankSession.PauseThenResume | src/frontend/src/game/useShankGame.ts:230-240 | pausing then resuming returns the same game with only the baseline reset |
| ShankSession.AfterChangeDirection | src/frontend/src/game/useShankGame.ts:246-260 | only the pending direction may change; it becomes d iff playing and d is not the reverse of the direction last moved; the no-reversal property is kept |
| ShankSession.ActionPreservesInv | src/frontend/src/game/useShankGame.ts:183-260 | every request keeps the invariant and the best score |
| ShankSession.AfterEvent | src/frontend/src/game/useShankGame.ts:153-326 | any frame, key or request keeps the invariant and never lowers the best score |
| ShankSession.MoveBestScore | src/frontend/src/game/useShankGame.ts:128-131 | a move never lowers the best score |
| ShankSession.Run | src/frontend/src/game/useShankGame.ts:22-326 | any sequence of events from a valid state ends in a valid state with a best score at least the starting one |
| ShankSession.BestScoreAtLeastScore | src/frontend/src/game/useShankGame.ts:122-131 | after any run from mount the best score is at least the score and at least the stored best |
| ShankGame.Game.constructor | src/frontend/src/game/useShankGame.ts:22-43 | the fields start as the hook's initial state, which satisfies the invariant |
| ShankGame.Game.MoveShank | src/frontend/src/game/useShankGame.ts:93-151 | the fields after the move are AfterMove of the fields before |
| ShankGame.Game.GameLoop | src/frontend/src/game/useShankGame.ts:153-168 | the fields and the moved flag are AfterFrame of the fields before; a new frame is requested iff still playing; the invariant is kept |
| ShankGame.Game.StartGame | src/frontend/src/game/useShankGame.ts:183-199 | the fields become AfterStart of the fields before and satisfy the invariant |
| ShankGame.Game.NextLevel | src/frontend/src/game/useShankGame.ts:201-228 | the fields become AfterNextLevel of the fields before; the invariant is kept |
| ShankGame.Game.PauseGame | src/frontend/src/game/useShankGame.ts:230-234 | the fields become AfterPause of the fields before |
| ShankGame.Game.ResumeGame | src/frontend/src/game/useShankGame.ts:236-240 | the fields become AfterResume of the fields before |
| ShankGame.Game.RestartGame | src/frontend/src/game/useShankGame.ts:242-244 | restarting has exactly the effect of starting |
| ShankGame.Game.ChangeDirection | src/frontend/src/game/useShankGame.ts:246-260 | the fields become AfterChangeDirection of the fields before |
| ShankGame.Game.HandleKey | src/frontend/src/game/useShankGame.ts:262-326 | the fields become AfterKey of the fields before: the table's action for the current mode is performed |
| Skins.FindIndex | src/frontend/src/game/skins.ts:70 | -1 iff no entry has the id; otherwise the first entry with that id |
| Skins.Find | src/frontend/src/game/skins.ts:70 | nothing iff no entry has the id; otherwise the first entry of the table with that id |
| Skins.SpriteFor | src/frontend/src/game/skins.ts:69-72 | the result is always some entry's sprite, and the first entry's when the id is not listed |
| Skins.SpriteOfListedSkin | src/frontend/src/game/skins.ts:69-77 | in a table with distinct ids and non-empty sprites, a listed id yields its own sprite |
| Skins.ShankCatalogWellFormed | src/frontend/src/game/skins.ts:7-28 | the shank skins have distinct ids and non-empty sprites |
| Skins.AppleCatalogWellFormed | src/frontend/src/game/skins.ts:30-46 | the apple skins have distinct ids and non-empty sprites |
| Skins.ShankSpriteLookup | src/frontend/src/game/skins.ts:69-72 | a listed shank id gives its own sprite, an unlisted one the classic sprite, and the result is always a sprite of the table |
| Skins.AppleSpriteLookup | src/frontend/src/game/skins.ts:74-77 | the same three facts for the apple table |
| Skins.LoadFrom | src/frontend/src/game/skins.ts:51-54 | a stored non-empty id is returned; a missing or empty one reads as "default" |
| Skins.SaveThenLoad | src/frontend/src/game/skins.ts:48-67 | saving an id and loading the same key returns it (or "default" for the empty id); the other key loads as before |
| Skins.SkinStore.LoadShankSkin | src/frontend/src/game/skins.ts:51-54 | the loaded shank skin id is never empty |
| Skins.SkinStore.LoadAppleSkin | src/frontend/src/game/skins.ts:60-63 | the loaded apple skin id is never empty |
| Skins.SkinStore.SaveShankSkin | src/frontend/src/game/skins.ts:56-58 | the store gets the id under the shank key; loading it back returns the id; the apple skin loads as before |
| Skins.SkinStore.SaveAppleSkin | src/frontend/src/game/skins.ts:65-67 | the store gets the id under the apple key; loading it back returns the id; the shank skin loads as before |
| DeployDomain.LeadingWhitespace | src/frontend/scripts/validate-deploy-domain.mjs:21 | the count of leading whitespace: all of those characters are whitespace and the next one is not |
| DeployDomain.TrailingWhitespace | src/frontend/scripts/validate-deploy-domain.mjs:21 | the count of trailing whitespace: all of those characters are whitespace and the one before is not |
| DeployDomain.LeadingWhitespaceUnique | src/frontend/scripts/validate-deploy-domain.mjs:21 | only one count has the leading-whitespace properties |
| DeployDomain.TrailingWhitespaceUnique | src/frontend/scripts/validate-deploy-domain.mjs:21 | only one count has the trailing-whitespace properties |
| DeployDomain.Validate | src/frontend/scripts/validate-deploy-domain.mjs:7-56 | accepted iff the file was read and its trimmed contents match ^[a-z0-9-]{5,50}$, with the trimmed text as the domain; missing file, read failure, empty, quotes and bad format each iff their check is the first to fail |
| DeployDomain.AcceptedDomainShape | src/frontend/scripts/validate-deploy-domain.mjs:5 | an accepted domain has 5 to 50 characters, all from a-z, 0-9 and '-', none of them whitespace or a quote |
| DeployDomain.QuoteRejectionIsSound | src/frontend/scripts/validate-deploy-domain.mjs:36-42 | a quote rejection reports the trimmed contents, which hold a quote and could never have matched the pattern |
| DeployDomain.TrimIdempotent | src/frontend/scripts/validate-deploy-domain.mjs:21 | trimming twice is trimming once |
| DeployDomain.TrimStartSkipsLeadingWhitespace | src/frontend/scripts/validate-deploy-domain.mjs:21 | whitespace put in front does not change the start-trimmed text |
| DeployDomain.TrimEndSkipsTrailingWhitespace | src/frontend/scripts/validate-deploy-domain.mjs:21 | whitespace put behind does not change the end-trimmed text |
| DeployDomain.TrimIgnoresTrailingWhitespace | src/frontend/scripts/validate-deploy-domain.mjs:21 | whitespace put behind does not change the trimmed text |
| DeployDomain.SurroundingWhitespaceIgnored | src/frontend/scripts/validate-deploy-domain.mjs:21 | whitespace around the contents changes neither the trimmed text nor the verdict |

## Left out

- React's effect for the frame loop re-runs whenever `gameLoop` changes identity (useShankGame.ts:151, 168, 170-181), and each re-run resets the frame baseline to 0. That happens after an apple (the apple and score change) and after every accepted turn (`nextDirection` changes). The model resets the baseline only when play is entered (start, next level, resume). So after an apple or a turn the model can move up to `speed` plus one frame earlier than the browser, which waits a full `speed` from the first frame after the reset. In particular, turns accepted more often than every `speed` ms (say Up and Down alternately while heading Right) keep the browser's shank from moving at all, while the model keeps moving it.
- Stale closures and the side effects inside the `setShankBody` updater, including a double run of the updater in React's strict mode, are not modelled. Each handler is one atomic update of the fields.
- `requestAnimationFrame` and `cancelAnimationFrame` are not modelled: frames are events with integer timestamps, delivered only while playing, and `GameLoop` reports whether another frame is requested.
- `Math.random()` is a parameter `roll` in [0, 1).
- Speeds and multipliers are exact reals. JavaScript's floating-point rounding of `score / 10` and of the division by the multiplier is not modelled.
- Reading the best score from `localStorage` with `parseInt` is not modelled: the constructor takes the stored value as a natural number. Writing the best score back is not modelled either.
- The hook's skin state (`shankSkin`, `appleSkin`, `setShankSkin`, `setAppleSkin`), `CELL_SIZE` and the returned view object are presentation. The skin store itself is modelled as `Skins.SkinStore`.
- Key listener registration, `preventDefault`, rendering, touch controls and the build and packaging scripts are not part of this model.
- The validator's `console` output, `process.exit` and the file system are not modelled: the file is a `DomainFile` value (missing, unreadable, or contents), and the verdict names the exit path.
- Game.MoveShank: requires a non-empty body, as the source reads `prevBody[0]` without a check. Every body the engine builds has three or more segments.
- Game.StartGame: requires a non-negative best score, which every stored value the model admits satisfies.
- Game.GameLoop, Game.NextLevel, Game.PauseGame, Game.ResumeGame, Game.RestartGame, Game.ChangeDirection, Game.HandleKey: require the invariant `Valid()`. It holds after the constructor, and every handler keeps it (`ShankSession.Run`).
- Skins.SpriteFor: requires a non-empty table; both tables are constant and non-empty.
