/**
 * The game session: score, high score, pause state and difficulty, and
 * the transitions the frame loop, the key listener, the reset and the
 * difficulty controls apply to them.
 *
 * The per-frame snake action code is produced by the snake's combined
 * move-and-eat step, whose body is not part of this model: each frame's
 * code is an input, and the step's effects on the snake, the food and the
 * big food are left open (the contracts keep only the invariant). Key
 * presses are reduced to the keys the listener tells apart.
 */
module GameSession {
  import opened Geometry
  import opened SnakeBody
  import opened FoodSpawn
  import opened BigFoodTimer

  /** Logical grid density of the square base grid. */
  const GridSize: nat := 80

  /** Move delay of the default (medium) difficulty. */
  const GameSpeed: real := 0.2

  /** Snake action codes reported once per frame. */
  const GameOver: int := 1
  const AteFood: int := 2
  const AteBigFood: int := 3

  datatype Key = Space | Escape | KeyR | OtherKey

  /** Score awarded for one frame's action code. */
  function Points(action: int): nat
  {
    if action == AteFood then 1 else if action == AteBigFood then 2 else 0
  }

  /** Score earned over consecutive frames while playing: the sum of the
      frames' points, up to the first game over. */
  function Earned(actions: seq<int>): nat
    decreases |actions|
  {
    if actions == [] then 0
    else if actions[0] == GameOver then 0
    else Points(actions[0]) + Earned(actions[1..])
  }

  /** One more frame adds its points unless a game over came before it. */
  lemma {:induction false} EarnedSnoc(actions: seq<int>, a: int)
    ensures Earned(actions + [a]) ==
            Earned(actions) + (if GameOver in actions then 0 else Points(a))
    decreases |actions|
  {
    if actions != [] {
      assert (actions + [a])[1..] == actions[1..] + [a];
      EarnedSnoc(actions[1..], a);
    }
  }

  /** Nothing after a game over is scored. */
  lemma {:induction false} NothingAfterGameOver(before: seq<int>, after: seq<int>)
    ensures Earned(before + [GameOver] + after) == Earned(before)
    decreases |before|
  {
    if before != [] {
      assert (before + [GameOver] + after)[1..] == before[1..] + [GameOver] + after;
      NothingAfterGameOver(before[1..], after);
    }
  }

  class Game {
    var score: nat
    var highScore: nat
    var isPlaying: bool
    var showPauseMenuWindow: bool
    var snakeSpeed: real
    var difficulty: int
    const gridInfo: GridInfo
    const snake: Snake
    const food: Food
    var bigFood: BigFood?
    /** Lifetime of a big food spawned during play. */
    const bigFoodLifeTime: real

    /** The window is usable, the food shares the game's grid, the grid
        keeps its base density, a present big food shares the grid and
        keeps its countdown valid, and spawned big foods get a positive
        lifetime. */
    predicate Valid()
      reads this, gridInfo, food, bigFood
    {
      gridInfo.Usable() &&
      food.gridInfo == gridInfo &&
      gridInfo.baseSize == GridSize &&
      (bigFood != null ==> bigFood.gridInfo == gridInfo && bigFood.Valid()) &&
      bigFoodLifeTime > 0.0
    }

    /** A playing session on a window of the given size; the big food is
        not created by the constructor. */
    constructor (screen: (int, int), bigFoodLifeTime: real)
      requires screen.0 > 0 && screen.1 >= 0 && bigFoodLifeTime > 0.0
      ensures Valid() && fresh(gridInfo) && fresh(snake) && fresh(food)
      ensures gridInfo.screenSize == screen && this.bigFoodLifeTime == bigFoodLifeTime
      ensures score == 0 && highScore == 0 && isPlaying && !showPauseMenuWindow
      ensures snakeSpeed == GameSpeed && difficulty == 1 && bigFood == null
      ensures snake.segments == StartBody && snake.direction == DefaultDirection
      ensures food.respawnCounter == 0 && IsFoodSpot(food.position, gridInfo.GridSizeI())
    {
      var g := new GridInfo(GridSize, screen);
      var s := new Snake();
      var f := new Food(g, false);
      gridInfo := g;
      snake := s;
      food := f;
      bigFood := null;
      this.bigFoodLifeTime := bigFoodLifeTime;
      score := 0;
      highScore := 0;
      isPlaying := true;
      showPauseMenuWindow := false;
      snakeSpeed := GameSpeed;
      difficulty := 1;
    }

    /** The game logic of one frame of the main loop, given the snake's
        action code; `acted` tells whether the snake was asked to act.
        While playing, the snake's step may move or grow the snake, respawn
        the food, change the big food or spawn a new one; while paused
        nothing but the flags below is touched. */
    method PlayFrame(action: int) returns (acted: bool)
      requires Valid()
      modifies this, snake, food, bigFood
      ensures Valid()
      ensures bigFood == null || bigFood == old(bigFood) || fresh(bigFood)
      ensures !old(isPlaying) ==>
                unchanged(snake, food) && bigFood == old(bigFood) &&
                (bigFood != null ==> unchanged(bigFood))
      ensures acted == old(isPlaying)
      ensures !old(isPlaying) ==>
                score == old(score) && !isPlaying && showPauseMenuWindow == old(showPauseMenuWindow)
      ensures old(isPlaying) && action == GameOver ==>
                score == old(score) && !isPlaying && showPauseMenuWindow
      ensures old(isPlaying) && action != GameOver ==>
                score == old(score) + Points(action) && isPlaying &&
                showPauseMenuWindow == old(showPauseMenuWindow)
      ensures highScore == old(highScore)
      ensures snakeSpeed == old(snakeSpeed) && difficulty == old(difficulty)
    {
      acted := isPlaying;
      if isPlaying {
        // The snake's step may spawn the big food; which frames do is open.
        var spawn: bool := *;
        if spawn && bigFood == null {
          bigFood := new BigFood(gridInfo, bigFoodLifeTime);
        }
        if action == GameOver {
          isPlaying := false;
          showPauseMenuWindow := true;
        } else if action == AteFood {
          score := score + 1;
        } else if action == AteBigFood {
          score := score + 2;
        }
      }
    }

    /** Consecutive frames of the main loop with no input events in between. */
    method RunFrames(actions: seq<int>)
      requires Valid()
      modifies this, snake, food, bigFood
      ensures Valid()
      ensures bigFood == null || bigFood == old(bigFood) || fresh(bigFood)
      ensures !old(isPlaying) ==>
                unchanged(snake, food) && bigFood == old(bigFood) &&
                (bigFood != null ==> unchanged(bigFood))
      ensures old(isPlaying) ==>
                score == old(score) + Earned(actions) && isPlaying == (GameOver !in actions)
      ensures old(isPlaying) && GameOver in actions ==> showPauseMenuWindow
      ensures !old(isPlaying) ==> score == old(score) && !isPlaying
      ensures !old(isPlaying) || GameOver !in actions ==>
                showPauseMenuWindow == old(showPauseMenuWindow)
      ensures highScore == old(highScore)
      ensures snakeSpeed == old(snakeSpeed) && difficulty == old(difficulty)
    {
      var i := 0;
      while i < |actions|
        invariant 0 <= i <= |actions|
        invariant Valid()
        invariant old(isPlaying) ==>
                    score == old(score) + Earned(actions[..i]) &&
                    isPlaying == (GameOver !in actions[..i])
        invariant old(isPlaying) && GameOver in actions[..i] ==> showPauseMenuWindow
        invariant !old(isPlaying) ==> score == old(score) && !isPlaying
        invariant !old(isPlaying) || GameOver !in actions[..i] ==>
                    showPauseMenuWindow == old(showPauseMenuWindow)
        invariant bigFood == null || bigFood == old(bigFood) || fresh(bigFood)
        invariant !old(isPlaying) ==>
                    unchanged(snake, food) && bigFood == old(bigFood) &&
                    (bigFood != null ==> unchanged(bigFood))
        invariant highScore == old(highScore)
        invariant snakeSpeed == old(snakeSpeed) && difficulty == old(difficulty)
      {
        assert actions[..i + 1] == actions[..i] + [actions[i]];
        EarnedSnoc(actions[..i], actions[i]);
        var _ := PlayFrame(actions[i]);
        i := i + 1;
      }
      assert actions[..|actions|] == actions;
    }

    /** Records a beaten high score (zeroing the score only then) and
        re-randomises the food, and the big food when it is active.
        `bigFoodMissing` reports the case where no big food exists. The
        snake's own reset is left open. */
    method ResetGame() returns (bigFoodMissing: bool)
      requires Valid()
      modifies this, snake, food, bigFood
      ensures Valid()
      ensures old(score) > old(highScore) ==> highScore == old(score) && score == 0
      ensures old(score) <= old(highScore) ==> highScore == old(highScore) && score == old(score)
      ensures highScore >= old(highScore) && score <= highScore
      ensures food.respawnCounter == 0 && IsFoodSpot(food.position, gridInfo.GridSizeI())
      ensures bigFoodMissing <==> old(bigFood) == null
      ensures bigFood == old(bigFood)
      ensures bigFood != null && old(bigFood.isActive) ==>
                IsBigFoodBlock(bigFood.position, gridInfo.GridSizeI()) &&
                bigFood.respawnCounter == 0 && bigFood.timeToLive == bigFood.lifeTime &&
                !bigFood.isCounting && bigFood.lastTime == 0.0 && !bigFood.isActive
      ensures bigFood != null && !old(bigFood.isActive) ==> unchanged(bigFood)
      ensures isPlaying == old(isPlaying) && showPauseMenuWindow == old(showPauseMenuWindow)
      ensures snakeSpeed == old(snakeSpeed) && difficulty == old(difficulty)
    {
      if score > highScore {
        highScore := score;
        score := 0;
      }
      food.Reset();
      if bigFood == null {
        bigFoodMissing := true;
      } else {
        bigFoodMissing := false;
        if bigFood.isActive {
          bigFood.Reset();
        }
      }
    }

    /** The key listener. Every key is handed to the snake's controls while
        playing (`forwarded`); Space and Escape toggle pause; R while paused
        resets the game and resumes it. What the snake's controls do with a
        forwarded key is left open. */
    method OnKeyPressed(key: Key) returns (forwarded: bool, bigFoodMissing: bool)
      requires Valid()
      modifies this, snake, food, bigFood
      ensures Valid()
      ensures forwarded == old(isPlaying) && bigFood == old(bigFood)
      ensures !old(isPlaying) && key != KeyR ==> unchanged(snake)
      ensures key == KeyR && !old(isPlaying) ==>
                food.respawnCounter == 0 && IsFoodSpot(food.position, gridInfo.GridSizeI())
      ensures key == KeyR && !old(isPlaying) && bigFood != null && old(bigFood.isActive) ==>
                IsBigFoodBlock(bigFood.position, gridInfo.GridSizeI()) &&
                bigFood.respawnCounter == 0 && bigFood.timeToLive == bigFood.lifeTime &&
                !bigFood.isCounting && bigFood.lastTime == 0.0 && !bigFood.isActive
      ensures !(key == KeyR && !old(isPlaying) && bigFood != null && old(bigFood.isActive)) ==>
                bigFood != null ==> unchanged(bigFood)
      ensures !(key == KeyR && !old(isPlaying)) ==> unchanged(food)
      ensures key == Space || key == Escape ==>
                isPlaying == !old(isPlaying) && showPauseMenuWindow == !isPlaying &&
                score == old(score) && highScore == old(highScore)
      ensures key == KeyR && !old(isPlaying) ==>
                isPlaying && !showPauseMenuWindow && highScore >= old(highScore) &&
                (if old(score) > old(highScore)
                 then highScore == old(score) && score == 0
                 else highScore == old(highScore) && score == old(score))
      ensures (key == KeyR && old(isPlaying)) || key == OtherKey ==>
                isPlaying == old(isPlaying) && showPauseMenuWindow == old(showPauseMenuWindow) &&
                score == old(score) && highScore == old(highScore)
      ensures bigFoodMissing <==> key == KeyR && !old(isPlaying) && old(bigFood) == null
      ensures snakeSpeed == old(snakeSpeed) && difficulty == old(difficulty)
    {
      forwarded := isPlaying;
      bigFoodMissing := false;
      if key == Space || key == Escape {
        isPlaying := !isPlaying;
        showPauseMenuWindow := !isPlaying;
      }
      if !isPlaying && key == KeyR {
        bigFoodMissing := ResetGame();
        isPlaying := !isPlaying;
        showPauseMenuWindow := !isPlaying;
      }
    }

    /** A difficulty chosen in the pause menu: presets 0..3 set the move
        delay, "Custom" (4) keeps it; the delay is then handed to the snake
        (`applied`), whose new state is left open. */
    method ChooseDifficulty(choice: int) returns (applied: real)
      requires Valid() && showPauseMenuWindow
      modifies this, snake
      ensures Valid()
      ensures difficulty == choice && applied == snakeSpeed
      ensures choice == 0 ==> snakeSpeed == 0.3
      ensures choice == 1 ==> snakeSpeed == 0.2
      ensures choice == 2 ==> snakeSpeed == 0.1
      ensures choice == 3 ==> snakeSpeed == 0.05
      ensures !(0 <= choice <= 3) ==> snakeSpeed == old(snakeSpeed)
      ensures score == old(score) && highScore == old(highScore) && bigFood == old(bigFood)
      ensures isPlaying == old(isPlaying) && showPauseMenuWindow == old(showPauseMenuWindow)
    {
      difficulty := choice;
      match difficulty {
        case 0 => snakeSpeed := 0.3;
        case 1 => snakeSpeed := 0.2;
        case 2 => snakeSpeed := 0.1;
        case 3 => snakeSpeed := 0.05;
        case _ =>
      }
      applied := snakeSpeed;
    }

    /** The custom-speed slider moved to `value`: the delay is taken as is
        and handed to the snake (whose new state is left open), and the
        difficulty becomes "Custom". */
    method MoveSpeedSlider(value: real) returns (applied: real)
      requires Valid() && showPauseMenuWindow
      modifies this, snake
      ensures Valid()
      ensures snakeSpeed == value && applied == value && difficulty == 4
      ensures score == old(score) && highScore == old(highScore) && bigFood == old(bigFood)
      ensures isPlaying == old(isPlaying) && showPauseMenuWindow == old(showPauseMenuWindow)
    {
      snakeSpeed := value;
      applied := snakeSpeed;
      difficulty := 4;
    }

    /** The pause menu's "Resume Game" button: play resumes and the menu closes. */
    method ResumeButton()
      requires Valid() && showPauseMenuWindow
      modifies this
      ensures Valid()
      ensures isPlaying && !showPauseMenuWindow
      ensures score == old(score) && highScore == old(highScore) && bigFood == old(bigFood)
      ensures snakeSpeed == old(snakeSpeed) && difficulty == old(difficulty)
    {
      isPlaying := true;
      showPauseMenuWindow := false;
    }

    /** The pause menu's "Reset Game" button: the game reset, then resume. */
    method ResetButton() returns (bigFoodMissing: bool)
      requires Valid() && showPauseMenuWindow
      modifies this, snake, food, bigFood
      ensures Valid()
      ensures isPlaying && !showPauseMenuWindow
      ensures old(score) > old(highScore) ==> highScore == old(score) && score == 0
      ensures old(score) <= old(highScore) ==> highScore == old(highScore) && score == old(score)
      ensures food.respawnCounter == 0 && IsFoodSpot(food.position, gridInfo.GridSizeI())
      ensures bigFoodMissing <==> old(bigFood) == null
      ensures bigFood == old(bigFood)
      ensures bigFood != null && old(bigFood.isActive) ==>
                IsBigFoodBlock(bigFood.position, gridInfo.GridSizeI()) &&
                bigFood.respawnCounter == 0 && bigFood.timeToLive == bigFood.lifeTime &&
                !bigFood.isCounting && bigFood.lastTime == 0.0 && !bigFood.isActive
      ensures bigFood != null && !old(bigFood.isActive) ==> unchanged(bigFood)
      ensures snakeSpeed == old(snakeSpeed) && difficulty == old(difficulty)
    {
      bigFoodMissing := ResetGame();
      isPlaying := true;
      showPauseMenuWindow := false;
    }

    /** The pause window's close box: the menu is hidden and the play state
        is kept, so a paused game can have its menu hidden. */
    method ClosePauseMenu()
      requires Valid() && showPauseMenuWindow
      modifies this
      ensures Valid()
      ensures !showPauseMenuWindow && isPlaying == old(isPlaying)
      ensures score == old(score) && highScore == old(highScore) && bigFood == old(bigFood)
      ensures snakeSpeed == old(snakeSpeed) && difficulty == old(difficulty)
    {
      showPauseMenuWindow := false;
    }
  }
}
