/** What one frame of the game guarantees, proved about the functions of
    module Simulation: the brick sweep, the paddle bounce, the frame as a
    whole, and the reset. */
module Properties {
  import opened Geometry
  import opened Simulation

  // ---------------------------------------------------------------- brick sweep

  /** The sweep over the first k bricks has not looked at brick j >= k yet. */
  lemma {:induction false} PassLeavesLaterBricks(bricks: seq<bool>, pos: Vector2, v: Vector2, k: nat, j: nat)
    requires k <= j < |bricks|
    ensures Pass(bricks, pos, v, k).bricks[j] == bricks[j]
    decreases k
  {
    if k > 0 {
      PassLeavesLaterBricks(bricks, pos, v, k - 1, j);
    }
  }

  /** The sweep only ever switches bricks off. */
  lemma {:induction false} PassNeverRevives(bricks: seq<bool>, pos: Vector2, v: Vector2, k: nat)
    requires k <= |bricks|
    ensures forall j :: 0 <= j < |bricks| && Pass(bricks, pos, v, k).bricks[j] ==> bricks[j]
    decreases k
  {
    if k > 0 {
      PassNeverRevives(bricks, pos, v, k - 1);
    }
  }

  /** Bricks only reverse the ball: the size of each speed component survives the sweep. */
  lemma {:induction false} PassKeepsSpeedMagnitude(bricks: seq<bool>, pos: Vector2, v: Vector2, k: nat)
    requires k <= |bricks|
    ensures var w := Pass(bricks, pos, v, k).speed;
            Abs(w.x) == Abs(v.x) && Abs(w.y) == Abs(v.y)
    decreases k
  {
    if k > 0 {
      PassKeepsSpeedMagnitude(bricks, pos, v, k - 1);
    }
  }

  /** A sweep that switches no brick off leaves the speed as it was. */
  lemma {:induction false} PassWithoutHitKeepsSpeed(bricks: seq<bool>, pos: Vector2, v: Vector2, k: nat)
    requires k <= |bricks|
    requires Pass(bricks, pos, v, k).bricks == bricks
    ensures Pass(bricks, pos, v, k).speed == v
    decreases k
  {
    if k > 0 {
      var before := Pass(bricks, pos, v, k - 1);
      // brick k - 1 still has its original flag before its own test, so a hit would show
      PassLeavesLaterBricks(bricks, pos, v, k - 1, k - 1);
      if HitBrick(before, pos, k - 1) != before {
        assert false;
      }
      PassWithoutHitKeepsSpeed(bricks, pos, v, k - 1);
    }
  }

  /** When no brick's test fires against the ball's speed, the sweep changes nothing. */
  lemma {:induction false} PassMissingAll(bricks: seq<bool>, pos: Vector2, v: Vector2, k: nat)
    requires k <= |bricks|
    requires forall i :: 0 <= i < k ==> BrickHit(pos, v, CentreOf(i)) == NoHit
    ensures Pass(bricks, pos, v, k) == Sweep(bricks, v)
    decreases k
  {
    if k > 0 {
      PassMissingAll(bricks, pos, v, k - 1);
    }
  }

  /** A ball at rest hits no brick. */
  lemma PassAtRest(bricks: seq<bool>, pos: Vector2, k: nat)
    requires k <= |bricks|
    ensures Pass(bricks, pos, Vector2(0.0, 0.0), k) == Sweep(bricks, Vector2(0.0, 0.0))
  {
    PassMissingAll(bricks, pos, Vector2(0.0, 0.0), k);
  }

  /** Counting: a grid whose every active brick was active in another grid
      of the same size has no more active bricks than it. */
  lemma {:induction false} ActiveCountMonotone(before: seq<bool>, after: seq<bool>)
    requires |before| == |after|
    requires forall j :: 0 <= j < |after| && after[j] ==> before[j]
    ensures ActiveCount(after) <= ActiveCount(before)
  {
    if after != [] {
      ActiveCountMonotone(before[1..], after[1..]);
    }
  }

  /** A grid with every brick active counts all of them. */
  lemma {:induction false} ActiveCountFull(bricks: seq<bool>)
    requires forall j :: 0 <= j < |bricks| ==> bricks[j]
    ensures ActiveCount(bricks) == |bricks|
  {
    if bricks != [] {
      ActiveCountFull(bricks[1..]);
    }
  }

  /** The brick phase changes only the brick flags and the ball's speed; it
      never revives a brick and never changes the size of a speed component. */
  lemma CollideBricksOnlyDestroys(s: State)
    ensures var t := CollideBricks(s);
            && t.player == s.player && t.pause == s.pause && t.gameOver == s.gameOver
            && t.ball.position == s.ball.position && t.ball.active == s.ball.active
            && Abs(t.ball.speed.x) == Abs(s.ball.speed.x) && Abs(t.ball.speed.y) == Abs(s.ball.speed.y)
            && |t.bricks| == |s.bricks|
            && (forall j :: 0 <= j < |t.bricks| && t.bricks[j] ==> s.bricks[j])
            && ActiveCount(t.bricks) <= ActiveCount(s.bricks)
            && (t.bricks == s.bricks ==> t.ball.speed == s.ball.speed)
  {
    var n := |s.bricks|;
    PassNeverRevives(s.bricks, s.ball.position, s.ball.speed, n);
    PassKeepsSpeedMagnitude(s.bricks, s.ball.position, s.ball.speed, n);
    var t := CollideBricks(s);
    ActiveCountMonotone(s.bricks, t.bricks);
    if t.bricks == s.bricks {
      PassWithoutHitKeepsSpeed(s.bricks, s.ball.position, s.ball.speed, n);
    }
  }

  // ---------------------------------------------------------------- walls

  /** The wall phase only reverses speed components: any contact with a side
      wall reverses the horizontal speed and any contact with the ceiling the
      vertical one, whichever way the ball is moving, so a ball moving into a
      wall is sent back into the field, while one already moving away from it
      is turned back towards it; a ball touching nothing keeps its speed. */
  lemma CollideWallsTurnsInward(s: State)
    ensures var t := CollideWalls(s);
            var p, v, w := s.ball.position, s.ball.speed, t.ball.speed;
            && t.player == s.player && t.bricks == s.bricks
            && t.ball.position == p && t.ball.active == s.ball.active
            && Abs(w.x) == Abs(v.x) && Abs(w.y) == Abs(v.y)
            && (p.x + BALL_RADIUS >= CANVAS_WIDTH && v.x > 0.0 ==> w.x < 0.0)
            && (p.x - BALL_RADIUS <= 0.0 && v.x < 0.0 ==> w.x > 0.0)
            && (p.y - BALL_RADIUS <= 0.0 && v.y < 0.0 ==> w.y > 0.0)
            && (p.x + BALL_RADIUS >= CANVAS_WIDTH || p.x - BALL_RADIUS <= 0.0 ==> w.x == -v.x)
            && (p.y - BALL_RADIUS <= 0.0 ==> w.y == -v.y)
            && (BALL_RADIUS < p.x < CANVAS_WIDTH - BALL_RADIUS && p.y > BALL_RADIUS ==> w == v)
  {
  }

  // ---------------------------------------------------------------- paddle

  /** The paddle bounce turns a ball upwards exactly when it is falling and
      touches the paddle, with the horizontal speed given by Steer; a ball
      that is not falling keeps its speed. A bounce leaves the ball moving up with a
      horizontal speed at most STEERING scaled by how far past the paddle's
      half width a touching ball can be (its radius). */
  lemma CollidePlayerBounce(s: State)
    ensures var t := CollidePlayer(s);
            && t.player == s.player && t.bricks == s.bricks
            && t.ball.position == s.ball.position && t.ball.active == s.ball.active
            && (s.ball.speed.y <= 0.0 ==> t.ball.speed == s.ball.speed)
            && (t.ball.speed != s.ball.speed <==>
                  CheckCollisionCircleRec(s.ball.position, BALL_RADIUS, PlayerRect(s.player.position))
                  && s.ball.speed.y > 0.0)
            && (CheckCollisionCircleRec(s.ball.position, BALL_RADIUS, PlayerRect(s.player.position))
                && s.ball.speed.y > 0.0 ==>
                  t.ball.speed == Vector2(Steer(s.ball.position.x, s.player.position.x), -s.ball.speed.y))
            && (t.ball.speed != s.ball.speed ==>
                  && s.ball.speed.y > 0.0
                  && t.ball.speed.y == -s.ball.speed.y
                  && Abs(t.ball.speed.x) <= STEERING * (PLAYER_SIZE.x / 2.0 + BALL_RADIUS) / (PLAYER_SIZE.x / 2.0))
  {
    var t := CollidePlayer(s);
    var b, p := s.ball.position, s.player.position;
    if t.ball.speed != s.ball.speed {
      CollisionWithinReach(b, BALL_RADIUS, PlayerRect(p));
    }
  }

  // ---------------------------------------------------------------- the frame

  /** The frame runs its physics: the game is not over and the pause flag,
      after the toggle on "p", is off. */
  ghost predicate RunsPhysics(s: State, key: Key) {
    !s.gameOver && s.pause == (key == KeyDown("p"))
  }

  /** A frame that runs physics is the physics of the state with pause off. */
  lemma StepRunsPhysics(s: State, pointerX: real, fire: bool, key: Key)
    requires RunsPhysics(s, key)
    ensures Step(s, pointerX, fire, key) == Physics(s.(pause := false), pointerX, fire)
  {
  }

  /** Pause toggles on "p" only while the game is not over; nothing else in a
      frame touches it. */
  lemma StepPause(s: State, pointerX: real, fire: bool, key: Key)
    ensures var t := Step(s, pointerX, fire, key);
            t.pause == if !s.gameOver then s.pause != (key == KeyDown("p")) else s.pause
  {
  }

  /** A paused frame changes nothing but the pause flag. */
  lemma PausedStepFreezes(s: State, pointerX: real, fire: bool, key: Key)
    requires !s.gameOver && s.pause != (key == KeyDown("p"))
    ensures var t := Step(s, pointerX, fire, key);
            t == s.(pause := true)
  {
  }

  /** Once the game is over, a frame with neither fire nor Enter changes nothing. */
  lemma GameOverWaits(s: State, pointerX: real, fire: bool, key: Key)
    requires s.gameOver && !fire && key != KeyDown("Enter")
    ensures Step(s, pointerX, fire, key) == s
  {
  }

  /** Once the game is over, fire or Enter restarts it: five lives, every brick
      active again, the ball resting above the paddle. */
  lemma GameOverRestarts(s: State, pointerX: real, fire: bool, key: Key)
    requires s.gameOver && (fire || key == KeyDown("Enter"))
    ensures var t := Step(s, pointerX, fire, key);
            && !t.gameOver && t.pause == s.pause
            && t.player.life == PLAYER_LIFES
            && |t.bricks| == BRICK_COUNT && ActiveCount(t.bricks) == BRICK_COUNT
            && !t.ball.active
            && t.ball.position == Vector2(t.player.position.x, t.player.position.y - 30.0)
  {
    ActiveCountFull(Step(s, pointerX, fire, key).bricks);
  }

  /** After a frame that runs physics the paddle lies whole inside the field,
      exactly under the pointer when the pointer allows it. */
  lemma StepClampsPaddle(s: State, pointerX: real, fire: bool, key: Key)
    requires RunsPhysics(s, key)
    ensures var x := Step(s, pointerX, fire, key).player.position.x;
            && PLAYER_SIZE.x / 2.0 <= x <= CANVAS_WIDTH - PLAYER_SIZE.x / 2.0
            && (x == pointerX <==> PLAYER_SIZE.x / 2.0 <= pointerX <= CANVAS_WIDTH - PLAYER_SIZE.x / 2.0)
  {
  }

  /** A launched ball moves by exactly its speed; nothing later in the frame moves it. */
  lemma StepMovesActiveBall(s: State, pointerX: real, fire: bool, key: Key)
    requires RunsPhysics(s, key) && s.ball.active
    ensures Step(s, pointerX, fire, key).ball.position ==
            Vector2(s.ball.position.x + s.ball.speed.x, s.ball.position.y + s.ball.speed.y)
  {
  }

  /** A resting ball without fire stays at rest above the paddle's new position. */
  lemma StepKeepsBallOnPaddle(s: State, pointerX: real, fire: bool, key: Key)
    requires Inv(s) && RunsPhysics(s, key) && !s.ball.active && !fire
    ensures var t := Step(s, pointerX, fire, key);
            t.ball == Ball(Vector2(t.player.position.x, SERVE_Y), Vector2(0.0, 0.0), false)
            && t.bricks == s.bricks && t.player.life == s.player.life
  {
    var moved := ServeOrMove(FollowPointer(s, pointerX), fire);
    var u := CollidePlayer(CollideFloor(CollideWalls(moved)));
    assert u.ball.speed == Vector2(0.0, 0.0);
    PassAtRest(u.bricks, u.ball.position, |u.bricks|);
  }

  /** Fire launches a resting ball straight up at LAUNCH_SPEED from above the
      paddle; in that frame it is not moved further and hits nothing. */
  lemma StepLaunchesBall(s: State, pointerX: real, key: Key)
    requires Inv(s) && RunsPhysics(s, key) && !s.ball.active
    ensures var t := Step(s, pointerX, true, key);
            && t.ball == Ball(Vector2(FollowX(pointerX), SERVE_Y), LAUNCH_SPEED, true)
            && t.bricks == s.bricks && t.player.life == s.player.life && !t.gameOver
  {
    var moved := ServeOrMove(FollowPointer(s, pointerX), true);
    var u := CollidePlayer(CollideFloor(CollideWalls(moved)));
    assert u.ball == Ball(Vector2(FollowX(pointerX), SERVE_Y), LAUNCH_SPEED, true);
    forall i | 0 <= i < |u.bricks|
      ensures BrickHit(u.ball.position, u.ball.speed, CentreOf(i)) == NoHit
    {
      assert i / BRICKS_PER_LINE <= LINES_OF_BRICKS - 1;
    }
    PassMissingAll(u.bricks, u.ball.position, u.ball.speed, |u.bricks|);
  }

  /** A ball whose move takes it to the floor is stopped and put to rest, one
      life is lost, and the game is over in the same frame if none is left. */
  lemma StepLosesBallAtFloor(s: State, pointerX: real, fire: bool, key: Key)
    requires RunsPhysics(s, key) && s.ball.active
    requires s.ball.position.y + s.ball.speed.y + BALL_RADIUS >= CANVAS_HEIGHT
    ensures var t := Step(s, pointerX, fire, key);
            && t.ball.speed == Vector2(0.0, 0.0) && !t.ball.active
            && t.player.life == s.player.life - 1
            && (t.gameOver <==> t.player.life <= 0)
            && t.bricks == s.bricks
  {
    var moved := ServeOrMove(FollowPointer(s, pointerX), fire);
    var u := CollidePlayer(CollideFloor(CollideWalls(moved)));
    assert u.ball.speed == Vector2(0.0, 0.0);
    PassAtRest(u.bricks, u.ball.position, |u.bricks|);
  }

  /** Bricks are never revived by a frame of a game that is not over, so the
      number of active bricks never grows between resets. */
  lemma StepNeverRevivesBricks(s: State, pointerX: real, fire: bool, key: Key)
    requires !s.gameOver
    ensures var t := Step(s, pointerX, fire, key);
            && |t.bricks| == |s.bricks|
            && (forall j :: 0 <= j < |t.bricks| && t.bricks[j] ==> s.bricks[j])
            && ActiveCount(t.bricks) <= ActiveCount(s.bricks)
  {
    if RunsPhysics(s, key) {
      StepRunsPhysics(s, pointerX, fire, key);
      var moved := ServeOrMove(FollowPointer(s.(pause := false), pointerX), fire);
      CollideBricksOnlyDestroys(CollidePlayer(CollideFloor(CollideWalls(moved))));
    } else {
      ActiveCountMonotone(s.bricks, s.bricks);
    }
  }

  /** The invariant holds from the start and every frame keeps it: lives stay
      within 0..PLAYER_LIFES, the game is over exactly when none is left, it is
      never paused and over at once, the paddle stays inside the field, and a
      ball at rest has no speed. */
  lemma StartSatisfiesInv()
    ensures Inv(Start())
    ensures ActiveCount(Start().bricks) == BRICK_COUNT
    ensures !Start().pause && !Start().gameOver && Start().player.life == PLAYER_LIFES
  {
    ActiveCountFull(Start().bricks);
  }

  lemma StepPreservesInv(s: State, pointerX: real, fire: bool, key: Key)
    requires Inv(s)
    ensures Inv(Step(s, pointerX, fire, key))
  {
    if RunsPhysics(s, key) {
      var moved := ServeOrMove(FollowPointer(s, pointerX), fire);
      var walls := CollideWalls(moved);
      var floor := CollideFloor(walls);
      var player := CollidePlayer(floor);
      assert !player.ball.active ==> player.ball.speed == Vector2(0.0, 0.0);
      if !player.ball.active {
        PassAtRest(player.bricks, player.ball.position, |player.bricks|);
      }
      assert |CollideBricks(player).bricks| == BRICK_COUNT;
    }
  }

  // ---------------------------------------------------------------- runs of frames

  /** The inputs of one frame. */
  datatype Frame = Frame(pointerX: real, fire: bool, key: Key)

  /** The state after the given frames, in order. */
  function Run(s: State, frames: seq<Frame>): State
    decreases |frames|
  {
    if frames == [] then s
    else Run(Step(s, frames[0].pointerX, frames[0].fire, frames[0].key), frames[1..])
  }

  /** However the player plays, the invariant holds after every frame from the
      start: in particular lives stay within 0..PLAYER_LIFES and the game is
      never paused and over at once. */
  lemma {:induction false} RunPreservesInv(s: State, frames: seq<Frame>)
    requires Inv(s)
    ensures Inv(Run(s, frames))
    decreases |frames|
  {
    if frames != [] {
      StepPreservesInv(s, frames[0].pointerX, frames[0].fire, frames[0].key);
      RunPreservesInv(Step(s, frames[0].pointerX, frames[0].fire, frames[0].key), frames[1..]);
    }
  }

  lemma EveryRunSatisfiesInv(frames: seq<Frame>)
    ensures var t := Run(Start(), frames);
            && 0 <= t.player.life <= PLAYER_LIFES
            && !(t.pause && t.gameOver)
            && Inv(t)
  {
    StartSatisfiesInv();
    RunPreservesInv(Start(), frames);
  }

  /** While the game is not over, frames never revive a brick, so the number
      of active bricks never grows between resets. */
  lemma {:induction false} RunWithoutResetNeverRevives(s: State, frames: seq<Frame>)
    requires forall n :: 0 <= n < |frames| ==> !Run(s, frames[..n]).gameOver
    ensures var t := Run(s, frames);
            && |t.bricks| == |s.bricks|
            && (forall j :: 0 <= j < |t.bricks| && t.bricks[j] ==> s.bricks[j])
            && ActiveCount(t.bricks) <= ActiveCount(s.bricks)
    decreases |frames|
  {
    if frames == [] {
      ActiveCountMonotone(s.bricks, s.bricks);
    } else {
      var f := frames[0];
      var u := Step(s, f.pointerX, f.fire, f.key);
      assert frames[..0] == [];
      StepNeverRevivesBricks(s, f.pointerX, f.fire, f.key);
      forall n | 0 <= n < |frames[1..]|
        ensures !Run(u, frames[1..][..n]).gameOver
      {
        assert frames[..n + 1] == [f] + frames[1..][..n];
        assert Run(s, frames[..n + 1]) == Run(u, frames[1..][..n]);
      }
      RunWithoutResetNeverRevives(u, frames[1..]);
      var t := Run(s, frames);
      ActiveCountMonotone(s.bricks, t.bricks);
    }
  }

  // ---------------------------------------------------------------- layout

  /** The reset puts five lives, a full grid and a resting ball above the
      centred paddle, and leaves the pause and game-over flags alone. */
  lemma InitializeLayout(s: State)
    ensures var t := Initialize(s);
            && t.player.life == PLAYER_LIFES
            && t.player.position == Vector2(CANVAS_WIDTH / 2.0, PLAYER_Y)
            && !t.ball.active && t.ball.speed == Vector2(0.0, 0.0)
            && t.ball.position == Vector2(t.player.position.x, t.player.position.y - 30.0)
            && t.ball.position.y == SERVE_Y
            && |t.bricks| == BRICK_COUNT && ActiveCount(t.bricks) == BRICK_COUNT
            && t.pause == s.pause && t.gameOver == s.gameOver
            && (!s.gameOver ==> Inv(t))
  {
    ActiveCountFull(Initialize(s).bricks);
  }

  /** Bricks are 40 units wide and 20 high. */
  lemma BrickSizeValue()
    ensures BRICK_SIZE == Vector2(40.0, 20.0)
  {
  }

  /** The bricks' columns tile the field's width edge to edge without overlap,
      and their rows stack without overlap below the top margin. */
  lemma BrickGridTiles()
    ensures BrickCentre(0, 0).x - BRICK_SIZE.x / 2.0 == 0.0
    ensures BrickCentre(0, BRICKS_PER_LINE - 1).x + BRICK_SIZE.x / 2.0 == CANVAS_WIDTH
    ensures forall r: nat, c: nat {:trigger BrickCentre(r, c)} ::
              BrickCentre(r, c).x + BRICK_SIZE.x / 2.0 == BrickCentre(r, c + 1).x - BRICK_SIZE.x / 2.0
    ensures forall r: nat, c: nat {:trigger BrickCentre(r, c)} ::
              BrickCentre(r, c).y + BRICK_SIZE.y / 2.0 == BrickCentre(r + 1, c).y - BRICK_SIZE.y / 2.0
  {
    BrickSizeValue();
    forall r: nat, c: nat
      ensures BrickCentre(r, c).x + BRICK_SIZE.x / 2.0 == BrickCentre(r, c + 1).x - BRICK_SIZE.x / 2.0
      ensures BrickCentre(r, c).y + BRICK_SIZE.y / 2.0 == BrickCentre(r + 1, c).y - BRICK_SIZE.y / 2.0
    {
      assert (c + 1) as real == c as real + 1.0;
      assert (r + 1) as real == r as real + 1.0;
    }
  }

  /** Bricks of one row in different columns never overlap. */
  lemma BrickColumnsDisjoint(r: nat, c1: nat, c2: nat)
    requires c1 < c2
    ensures BrickCentre(r, c1).x + BRICK_SIZE.x / 2.0 <= BrickCentre(r, c2).x - BRICK_SIZE.x / 2.0
  {
    BrickSizeValue();
    assert c1 as real + 1.0 <= c2 as real;
  }
}
