/** The game loop's shared objects as one object updated in place: the
    paddle, the ball, the pause and game-over flags and the grid of bricks.
    Each method performs one part of a frame field by field, as the loop
    does, and is proved to produce the state the matching function of module
    Simulation describes. */
module Arkanoid {
  import opened Geometry
  import opened Simulation
  import Properties

  class Game {
    var playerPosition: Vector2
    var life: int
    var ballPosition: Vector2
    var ballSpeed: Vector2
    var ballActive: bool
    var pause: bool
    var gameOver: bool
    /** The `active` flag of every brick, by row and column. */
    const bricks: array2<bool>

    ghost predicate Valid() {
      bricks.Length0 == LINES_OF_BRICKS && bricks.Length1 == BRICKS_PER_LINE
    }

    /** The brick flags in the order a frame visits them, row by row. */
    ghost function Grid(): (g: seq<bool>)
      requires Valid()
      reads bricks
      ensures |g| == BRICK_COUNT
    {
      seq(BRICK_COUNT, i requires 0 <= i < BRICK_COUNT reads bricks =>
        bricks[i / BRICKS_PER_LINE, i % BRICKS_PER_LINE])
    }

    ghost function Model(): State
      requires Valid()
      reads this, bricks
    {
      State(Player(playerPosition, life), Ball(ballPosition, ballSpeed, ballActive), Grid(), pause, gameOver)
    }

    /** The page has loaded: nothing is paused or over, then the game is initialized. */
    constructor ()
      ensures Valid() && fresh(bricks)
      ensures Model() == Start()
    {
      playerPosition, life := Vector2(0.0, 0.0), 0;
      ballPosition, ballSpeed, ballActive := Vector2(0.0, 0.0), Vector2(0.0, 0.0), false;
      pause, gameOver := false, false;
      bricks := new bool[LINES_OF_BRICKS, BRICKS_PER_LINE];
      new;
      Initialize();
    }

    /** Paddle, ball and a full grid in their starting places. */
    method Initialize()
      requires Valid()
      modifies this, bricks
      ensures Model() == Simulation.Initialize(old(Model()))
    {
      playerPosition := Vector2(CANVAS_WIDTH / 2.0, CANVAS_HEIGHT * 7.0 / 8.0);
      life := PLAYER_LIFES;
      ballPosition := Vector2(playerPosition.x, playerPosition.y - 30.0);
      ballSpeed := Vector2(0.0, 0.0);
      ballActive := false;
      for y := 0 to LINES_OF_BRICKS
        modifies bricks
        invariant forall r, c :: 0 <= r < y && 0 <= c < BRICKS_PER_LINE ==> bricks[r, c]
      {
        for x := 0 to BRICKS_PER_LINE
          invariant forall r, c :: 0 <= r < y && 0 <= c < BRICKS_PER_LINE ==> bricks[r, c]
          invariant forall c :: 0 <= c < x ==> bricks[y, c]
        {
          bricks[y, x] := true;
        }
      }
      assert Grid() == seq(BRICK_COUNT, _ => true);
    }

    /** The paddle follows the pointer and is pushed back inside the field. */
    method FollowPointer(pointerX: real)
      requires Valid()
      modifies this
      ensures Model() == Simulation.FollowPointer(old(Model()), pointerX)
    {
      playerPosition := playerPosition.(x := pointerX);
      if playerPosition.x - PLAYER_SIZE.x / 2.0 <= 0.0 {
        playerPosition := playerPosition.(x := PLAYER_SIZE.x / 2.0);
      }
      if playerPosition.x + PLAYER_SIZE.x / 2.0 >= CANVAS_WIDTH {
        playerPosition := playerPosition.(x := CANVAS_WIDTH - PLAYER_SIZE.x / 2.0);
      }
    }

    /** A resting ball is held above the paddle and launched on fire; a
        launched ball moves by its speed. */
    method ServeOrMove(fire: bool)
      requires Valid()
      modifies this
      ensures Model() == Simulation.ServeOrMove(old(Model()), fire)
    {
      if !ballActive {
        ballPosition := Vector2(playerPosition.x, CANVAS_HEIGHT * 7.0 / 8.0 - 30.0);
        if fire {
          ballActive := true;
          ballSpeed := Vector2(0.0, -5.0);
        }
      } else {
        ballPosition := ballPosition.(x := ballPosition.x + ballSpeed.x);
        ballPosition := ballPosition.(y := ballPosition.y + ballSpeed.y);
      }
    }

    /** Bounces off the side walls and the ceiling; the floor costs a life. */
    method CollideWalls()
      requires Valid()
      modifies this
      ensures Model() == CollideFloor(Simulation.CollideWalls(old(Model())))
    {
      if ballPosition.x + BALL_RADIUS >= CANVAS_WIDTH || ballPosition.x - BALL_RADIUS <= 0.0 {
        ballSpeed := ballSpeed.(x := -ballSpeed.x);
      }
      if ballPosition.y - BALL_RADIUS <= 0.0 {
        ballSpeed := ballSpeed.(y := -ballSpeed.y);
      }
      if ballPosition.y + BALL_RADIUS >= CANVAS_HEIGHT {
        ballSpeed := Vector2(0.0, 0.0);
        ballActive := false;
        life := life - 1;
      }
    }

    /** A falling ball that touches the paddle goes back up, steered by where it met it. */
    method CollidePlayer()
      requires Valid()
      modifies this
      ensures Model() == Simulation.CollidePlayer(old(Model()))
    {
      var rect := Rectangle(playerPosition.x - PLAYER_SIZE.x / 2.0, playerPosition.y - PLAYER_SIZE.y / 2.0,
                            PLAYER_SIZE.x, PLAYER_SIZE.y);
      if CheckCollisionCircleRec(ballPosition, BALL_RADIUS, rect) {
        if ballSpeed.y > 0.0 {
          ballSpeed := ballSpeed.(y := -ballSpeed.y);
          ballSpeed := ballSpeed.(x := ((ballPosition.x - playerPosition.x) / (PLAYER_SIZE.x / 2.0)) * STEERING);
        }
      }
    }

    /** Every active brick, row by row, is tested against the ball with the
        speed left by the bricks before it. */
    method CollideBricks()
      requires Valid()
      modifies this`ballSpeed, bricks
      ensures Model() == Simulation.CollideBricks(old(Model()))
    {
      ghost var grid0 := Grid();
      ghost var sweep := Sweep(grid0, ballSpeed);
      GridHolds();
      for y := 0 to LINES_OF_BRICKS
        invariant sweep == Pass(grid0, ballPosition, old(ballSpeed), y * BRICKS_PER_LINE)
        invariant Holds(sweep.bricks) && ballSpeed == sweep.speed
      {
        for x := 0 to BRICKS_PER_LINE
          invariant sweep == Pass(grid0, ballPosition, old(ballSpeed), y * BRICKS_PER_LINE + x)
          invariant Holds(sweep.bricks) && ballSpeed == sweep.speed
        {
          TestBrick(y, x, sweep);
          sweep := HitBrick(sweep, ballPosition, y * BRICKS_PER_LINE + x);
        }
      }
      HoldsIsGrid(sweep.bricks);
    }

    /** Brick (y, x) against the ball: an active brick hit from below, above,
        the left or the right, tried in that order, is switched off and
        reverses the speed component across that side. */
    method TestBrick(y: nat, x: nat, ghost sweep: Sweep)
      requires Valid() && y < LINES_OF_BRICKS && x < BRICKS_PER_LINE
      requires Holds(sweep.bricks) && ballSpeed == sweep.speed
      modifies this`ballSpeed, bricks
      ensures var next := HitBrick(sweep, ballPosition, y * BRICKS_PER_LINE + x);
              Holds(next.bricks) && ballSpeed == next.speed
    {
      ghost var i := y * BRICKS_PER_LINE + x;
      GridIndex(y, x);
      ghost var next := HitBrick(sweep, ballPosition, i);
      assert CentreOf(i) == BrickCentre(y, x) && sweep.bricks[i] == bricks[y, x];
      if bricks[y, x] {
        var hit := BrickHit(ballPosition, ballSpeed, BrickCentre(y, x));
        match hit {
          case NoHit =>
          case HitBelow | HitAbove =>
            bricks[y, x] := false;
            ballSpeed := ballSpeed.(y := -ballSpeed.y);
          case HitLeft | HitRight =>
            bricks[y, x] := false;
            ballSpeed := ballSpeed.(x := -ballSpeed.x);
        }
      }
      assert ballSpeed == next.speed && bricks[y, x] == next.bricks[i];
      forall r, c | 0 <= r < LINES_OF_BRICKS && 0 <= c < BRICKS_PER_LINE
        ensures bricks[r, c] == next.bricks[r * BRICKS_PER_LINE + c]
      {
        IndexInjective(r, c, y, x);
        if r != y || c != x {
          assert bricks[r, c] == old(bricks[r, c]) == sweep.bricks[r * BRICKS_PER_LINE + c];
        }
      }
    }

    /** The grid g holds the flag of every brick (r, c) at index r * BRICKS_PER_LINE + c. */
    ghost predicate Holds(g: seq<bool>)
      requires Valid()
      reads bricks
    {
      |g| == BRICK_COUNT &&
      forall r, c :: 0 <= r < LINES_OF_BRICKS && 0 <= c < BRICKS_PER_LINE ==>
        bricks[r, c] == g[r * BRICKS_PER_LINE + c]
    }

    lemma GridHolds()
      requires Valid()
      ensures Holds(Grid())
    {
      forall r, c | 0 <= r < LINES_OF_BRICKS && 0 <= c < BRICKS_PER_LINE
        ensures bricks[r, c] == Grid()[r * BRICKS_PER_LINE + c]
      {
        GridIndex(r, c);
      }
    }

    lemma HoldsIsGrid(g: seq<bool>)
      requires Valid() && Holds(g)
      ensures Grid() == g
    {
      forall j | 0 <= j < BRICK_COUNT
        ensures Grid()[j] == g[j]
      {
        GridIndex(j / BRICKS_PER_LINE, j % BRICKS_PER_LINE);
      }
    }

    /** Distinct bricks have distinct indices. */
    static lemma IndexInjective(r: nat, c: nat, y: nat, x: nat)
      requires c < BRICKS_PER_LINE && x < BRICKS_PER_LINE
      ensures r * BRICKS_PER_LINE + c == y * BRICKS_PER_LINE + x <==> r == y && c == x
    {
      if r < y {
        assert r * BRICKS_PER_LINE + c < (r + 1) * BRICKS_PER_LINE <= y * BRICKS_PER_LINE;
      } else if r > y {
        assert y * BRICKS_PER_LINE + x < (y + 1) * BRICKS_PER_LINE <= r * BRICKS_PER_LINE;
      }
    }

    /** Index y * BRICKS_PER_LINE + x of the grid is brick (y, x). */
    static lemma GridIndex(y: nat, x: nat)
      requires y < LINES_OF_BRICKS && x < BRICKS_PER_LINE
      ensures var i := y * BRICKS_PER_LINE + x;
              i < BRICK_COUNT && i / BRICKS_PER_LINE == y && i % BRICKS_PER_LINE == x
    {
    }

    /** One frame of the game loop, for the pointer position, the fire
        button and the key pressed since the previous frame. */
    method Step(pointerX: real, fire: bool, key: Key)
      requires Valid()
      modifies this, bricks
      ensures Model() == Simulation.Step(old(Model()), pointerX, fire, key)
      ensures Inv(old(Model())) ==> Inv(Model())
    {
      if !gameOver {
        if key == KeyDown("p") {
          pause := !pause;
        }
        if !pause {
          FollowPointer(pointerX);
          ServeOrMove(fire);
          CollideWalls();
          CollidePlayer();
          CollideBricks();
          if life <= 0 {
            gameOver := true;
          }
        }
      } else {
        if key == KeyDown("Enter") || fire {
          gameOver := false;
          Initialize();
        }
      }
      if Inv(old(Model())) {
        Properties.StepPreservesInv(old(Model()), pointerX, fire, key);
      }
    }
  }
}
