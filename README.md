# Snake game simulation core in Dafny

This project models the simulation logic of a grid-based snake game (C++,
SFML/OpenGL/ImGui). Rendering, windowing and the GUI are not modelled. It covers:

- `geometry.dfy` (module `Geometry`): the `Cell` coordinate. It also holds the
  `GridInfo` class, which derives the grid extents `(xMax, yMax)` from a base
  density and the window size. A zero window height counts as one. The shorter
  axis gets `baseSize` and the longer one `baseSize` scaled by the aspect ratio,
  rounded to the nearest integer. Floats become exact `real`s.
- `snake.dfy` (module `SnakeBody`): the snake's body buffer, with the head at
  index 0. `Move` shifts the body in place with a downward loop and then steps the
  head by the integer direction code. `SetDirection` refuses reversals. `Grow`
  appends a copy of the tail. `GenerateSegments` builds the three-cell start body.
- `food.dfy` (module `FoodSpawn`): single-cell food, inset two cells from the
  edges, and the 2x2 big-food block, anchored four cells in. Also respawn, reset
  and the respawn counter.
- `big_food.dfy` (module `BigFoodTimer`): the big-food countdown. The countdown
  starts on the first call. It then drains by clock time scaled by `0.3 / moveDelay`.
  When it runs out it deactivates the food and refills.
- `game.dfy` (module `GameSession`): score, high score, pause flags and
  difficulty. These change under the per-frame action code, the key listener,
  `resetGame` and the difficulty controls.

Direction codes follow the arithmetic in `move`: 0 is y+1, 1 is x+1, 2 is y-1 and
3 is x-1. The comments next to the code name these headings inconsistently, so the
model uses the numbers, not the comments. Random draws are arbitrary choices
(`:|`) within each draw's range, so every contract holds for every value the
generator can produce. The big-food clock reading is a parameter.

## Model

| member | source | states |
|---|---|---|
| `Geometry.Round` | include/header.hpp:44 | the result is the nearest integer to a non-negative value (within half a cell, halves upwards) and is non-negative |
| `Geometry.GridInfo.constructor` | include/header.hpp:32 | base size and screen size are stored as given |
| `Geometry.GridInfo.Height` | include/header.hpp:37-38 | the height used for the aspect ratio is never zero; a zero screen height is replaced by 1, any other height is used as is |
| `Geometry.GridInfo.AspectRatio` | include/header.hpp:77-80 | ratio times effective height gives the width; zero height gives the width itself; for a usable window the ratio is positive and is at least 1 exactly when width >= height |
| `Geometry.Extents` | include/header.hpp:40-53 | both extents are at least `baseSize`; a ratio >= 1 gives `yMax = baseSize` and `xMax` the rounding of `baseSize * aspect`; otherwise `xMax = baseSize` and `yMax` the rounding of `baseSize / aspect` |
| `Geometry.ExtentsAgree` | include/header.hpp:61-74 | the float computation gives numerically the same pair as the integer one |
| `Geometry.GridInfo.GridSizeI` | include/header.hpp:35-54 | for a usable window both extents are at least `baseSize`; width >= height gives `yMax = baseSize`, width < height gives `xMax = baseSize` |
| `Geometry.GridInfo.GridSizeF` | include/header.hpp:56-75 | for every usable window the float extents are numerically the integer extents of `getGridSizeI` |
| `Geometry.GridInfo.SquareScreen` | include/header.hpp:42-51 | a square window gives `(baseSize, baseSize)` |
| `Geometry.GridInfo.UpdateScreenSize` | include/header.hpp:83 | the screen size is replaced and the base size kept |
| `SnakeBody.GenerateSegments` | src/snake.cpp:15-24 | the loop builds exactly `[(5,10),(6,10),(7,10)]` |
| `SnakeBody.Snake.constructor` | include/snake.hpp:45-49 | the start body, direction 1, move delay 0.2, time since last move 0 |
| `SnakeBody.Snake.Head` | include/snake.hpp:20 | the head is the first segment |
| `SnakeBody.Opposite` | src/snake.cpp:56-57 | the reversal of a heading is a different heading, and it pairs 0 with 2 and 1 with 3 |
| `SnakeBody.Step` | src/snake.cpp:34-50 | codes 0..3 change exactly one coordinate by exactly one; any other code leaves the cell where it is |
| `SnakeBody.StepUndone` | src/snake.cpp:34-50 | a step along the opposite heading returns to the starting cell |
| `SnakeBody.Moved` | src/snake.cpp:26-51 | length is kept, the new head is the old head stepped, and each later segment takes its predecessor's old cell |
| `SnakeBody.Snake.Move` | src/snake.cpp:26-51 | for a non-empty body, the in-place shift loop and head switch yield `Moved` of the old body and direction, with the other fields unchanged |
| `SnakeBody.MovedTimesTrail` | src/snake.cpp:28-31 | after `k` moves the length is unchanged and segment `i >= k` sits where segment `i - k` was |
| `SnakeBody.StartMovedOnce` | src/snake.cpp:15-51 | the start body moved once with direction 1 is `[(6,10),(5,10),(6,10)]`, so the head shares the tail's cell |
| `SnakeBody.Steered` | src/snake.cpp:56-59 | the result is the old or the requested code; the opposite heading is never taken from a valid heading; any other request is accepted; an invalid code is kept |
| `SnakeBody.Snake.SetDirection` | src/snake.cpp:53-61 | the source's four-way condition gives exactly `Steered` of the old direction; nothing else changes |
| `SnakeBody.InvalidDirectionSticks` | src/snake.cpp:56-57 | a code outside 0..3 survives any sequence of requests |
| `SnakeBody.HeadingStaysValid` | src/snake.cpp:56-59 | requests within 0..3 keep a valid heading valid |
| `SnakeBody.Snake.Grow` | include/snake.hpp:30 | the body gains exactly one cell, a copy of the old tail, and earlier cells are unchanged |
| `SnakeBody.GrowThenMove` | include/snake.hpp:30 | grow then move gives the moved body with the pre-grow tail appended: length n+1, tail unchanged |
| `FoodSpawn.BigFoodBlockBounds` | src/food.cpp:51-56 | the cells of a big-food block are pairwise distinct and every coordinate lies in `[4, max-3]` |
| `FoodSpawn.GeneratePosition` | src/food.cpp:26-39 | exactly one cell with `2 <= x <= xMax-2` and `2 <= y <= yMax-2` |
| `FoodSpawn.GenerateBigFoodPosition` | src/food.cpp:46-57 | the four cells `(r,s),(r+1,s),(r,s+1),(r+1,s+1)` with `4 <= r <= xMax-4` and `4 <= s <= yMax-4` |
| `FoodSpawn.Food.constructor` | src/food.cpp:9-14 | a big-food block when `isBigFood`, a single in-range cell otherwise, and counter 0 |
| `FoodSpawn.Food.Respawn` | src/food.cpp:62-66 | the counter grows by exactly one and the position is a single in-range cell |
| `FoodSpawn.Food.Reset` | src/food.cpp:16-20 | the counter is 0 and the position is a single in-range cell |
| `BigFoodTimer.Decayed` | src/big_food.cpp:29-34 | a non-negative clock delta never raises the countdown, a positive one lowers it, and a zero one keeps it |
| `BigFoodTimer.FasterDrainsMore` | src/big_food.cpp:29-34 | over the same positive time, a smaller move delay drains strictly more |
| `BigFoodTimer.DrainedTelescopes` | src/big_food.cpp:24-34 | over successive readings with no expiry, the drain equals the clock time from start to last reading times `0.3 / moveDelay` |
| `BigFoodTimer.BigFood.constructor` | src/big_food.cpp:5 | a big-food block with counter 0, inactive, not counting, full countdown |
| `BigFoodTimer.BigFood.StartCounting` | src/big_food.cpp:13-42 | first call: counting starts, `lastTime = 0`, countdown and activity unchanged. Later calls: `lastTime` becomes the reading and the countdown drains by `Decayed`. On reaching <= 0 the food deactivates, stops counting and refills to the lifetime; otherwise activity is kept and counting continues. `0 < timeToLive <= lifeTime` is preserved |
| `BigFoodTimer.BigFood.Reset` | src/big_food.cpp:59-68 | a fresh big-food block, counter 0, countdown full, not counting, `lastTime = 0`, inactive |
| `GameSession.EarnedSnoc` | src/game.cpp:85-103 | one more frame adds 1 for code 2, 2 for code 3 and 0 otherwise, and adds nothing once a game over has occurred |
| `GameSession.NothingAfterGameOver` | src/game.cpp:89-94 | no frame after a game over is scored |
| `GameSession.Game.constructor` | src/game.cpp:15-46 | score 0, high score 0, playing, pause menu hidden, speed 0.2, difficulty 1, start snake, single-cell food, and no big food yet |
| `GameSession.Game.PlayFrame` | src/game.cpp:85-103 | nothing happens while paused: snake, food and big food are untouched. While playing, the snake's step may change the snake and the food and may keep, change or newly spawn the big food, which stays valid. Code 1 pauses and shows the menu, keeping the score. Code 2 adds 1, code 3 adds 2, and other codes leave the score |
| `GameSession.Game.RunFrames` | src/game.cpp:82-118 | consecutive frames started while playing add `Earned` of their codes and end paused exactly when a game over occurred; started while paused they change nothing, snake and food included; a big food present afterwards is the old one or a newly spawned one |
| `GameSession.Game.ResetGame` | src/game.cpp:121-134 | a score above the high score becomes the high score and the score is zeroed; otherwise both are kept. The high score never decreases and ends >= score. The food and an active big food are reset, and a missing big food is reported |
| `GameSession.Game.OnKeyPressed` | src/game.cpp:50-76 | keys reach the snake only while playing, and a paused snake is untouched by keys other than R. Space/Escape flips play and leaves the menu flag equal to "paused". R while paused updates the high score, resets the food and an active big food, and resumes. Every other key leaves the score, the food and the big food unchanged |
| `GameSession.Game.ChooseDifficulty` | src/game.cpp:189-209 | presets map 0 to 0.3, 1 to 0.2, 2 to 0.1 and 3 to 0.05 and keep the speed otherwise; the resulting speed is always handed on as the move delay |
| `GameSession.Game.MoveSpeedSlider` | src/game.cpp:211-217 | the slider value becomes the speed and the move delay, and the difficulty becomes 4 (Custom) |
| `GameSession.Game.ResumeButton` | src/game.cpp:244-248 | from the open pause menu, play resumes and the menu closes; score, high score, speed and big food are kept |
| `GameSession.Game.ResetButton` | src/game.cpp:257-262 | from the open pause menu, the `resetGame` effects (high score, score, food, active big food, missing big food reported), and then play resumes with the menu closed |
| `GameSession.Game.ClosePauseMenu` | src/game.cpp:168 | the window's close box hides the menu and keeps the play state, so a paused game can end up with its menu hidden; nothing else changes |

## Left out

- Rendering, shaders, windows and ImGui widgets are not modelled. This covers `Food::draw`, `BigFood::drawUI`, `showHUD`, the pause menu's text, layout and styling, and the "Quit" button (it only closes the window). These only issue foreign calls. The menu's state changes are modelled: the difficulty combo, the slider, "Resume", "Reset" and the close box.
- The SFML/ImGui input adapter (include/imgui/imgui_impl_sfml.cpp) is not part of this model.
- The random generator (a static Mersenne Twister) is modelled as an arbitrary choice in each draw's range. Uniformity is not modelled.
- The big food's `sf::Clock` is replaced by the `elapsed` parameter of `StartCounting`. The clock restart on the first call is implicit in the parameter's meaning.
- `BigFoodTimer.BigFood.StartCounting`: requires, once counting, a positive move delay and `lastTime <= elapsed`. The second holds for a monotone clock, and the invariant `0 < timeToLive <= lifeTime` depends on it.
- Floating-point rounding is not modelled: `float` and `GLfloat` values are exact reals. The source's constants `0.2f`, `0.1f`, `0.05f` and `0.3f` are the decimal values.
- `Geometry.GridInfo.GridSizeI`: requires a positive width and a non-negative height. A zero width makes the aspect ratio 0, and the source then divides by it and casts infinity to `int`, which is undefined. Only the zero height is guarded. A negative width or height gives a negative ratio. The source then computes defined, negative extents, and the model does not cover them. The game passes half the desktop size, which is never negative.
- `FoodSpawn.GeneratePosition`: requires both extents >= 4, and `FoodSpawn.GenerateBigFoodPosition` requires both >= 8. Otherwise the draw ranges are empty, which is undefined for the distributions. In the game the extents are at least the base size 80.
- The declared members whose bodies are not in the source are not modelled: `moveAndEat`, `mirrorEdges`, `isEating`, `isCollided`, `attachControl`, `setHead`, `setSegments`, `getBody`, `getDirection` and `Snake::draw`. `Snake::reset` and `Snake::setMoveDelay` are called by the game but are neither declared nor defined. That also leaves out edge wrapping, self-collision, eating, the movement-delay gate and the big-food spawn trigger.
- `GameSession.Game.PlayFrame`: the frame's action code is an input. The snake's step is left open. While playing, the contract lets the snake, the food and an existing big food change, and a new big food appear, keeping only `Valid()`. The body spawns at an arbitrary frame. That `Valid()` survives the step is assumed of the unseen code. In particular, a non-positive move delay from the slider, handed to `startCounting`, would push the countdown above the lifetime, and the model does not cover it.
- `GameSession.Game.OnKeyPressed`: forwarding a key to `attachControl` is reported as `forwarded`. The snake may change while playing.
- `GameSession.Game.ChooseDifficulty`: the delay handed to the undefined `setMoveDelay` is reported as `applied`. The snake may change, but its new state, including its `moveDelay`, is not stated.
- `GameSession.Game.MoveSpeedSlider`: the delay handed to the undefined `setMoveDelay` is reported as `applied`. The snake may change, but its new state, including its `moveDelay`, is not stated.
- `GameSession.Game.ResetGame`: the snake may change through the undefined `Snake::reset`, but its new state is not stated.
- `GameSession.Game.ResetGame`: the constructor does not create the big food, and the code that would (`moveAndEat`) is not in the source. While it is still null, `resetGame` dereferences a null pointer, which is undefined. The model reports that case as `bigFoodMissing` and skips the big food.
- `BigFood` inherits from `Food` in the source. Here the inherited fields (`gridInfo`, `position`, `respawnCounter`) are repeated in the `BigFood` class.
- `LifeTime`, `isCounting`, `lastTime` and `timeToLive` are not declared in include/big_food.hpp or include/food.hpp. The model takes `lifeTime` as a positive constructor argument (the game's `bigFoodLifeTime` for the big foods it spawns) and starts the others at not counting, 0 and the lifetime.
- Console output is not modelled: the debug prints in `generatePosition` (src/food.cpp:35-36) and the "Game Over" message (src/game.cpp:91).
- `score`, `highScore` and `respawnCounter` are 32-bit unsigned in the source. The model uses unbounded naturals, so wrap-around after 2^32 increments is not modelled.
- `GameSession.Game.RunFrames`: models only loop iterations with no input events between frames. Key presses and menu actions are separate operations (`OnKeyPressed`, `ChooseDifficulty`, `MoveSpeedSlider`, `ResumeButton`, `ResetButton`, `ClosePauseMenu`).
- The snake constructor in src/snake.cpp:5 takes a direction argument that does not match the header's constructor. The model follows the header: the direction defaults to 1.
