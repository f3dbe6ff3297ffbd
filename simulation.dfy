/** The game as values: the state one frame of the game loop reads and
    writes, each phase of that frame as a function from state to state, and
    the reset that builds the starting layout. The class in game.dfy performs
    the same phases in place and is proved equal to these functions. */
module Simulation {
  import opened Geometry

  const CANVAS_WIDTH: real := 800.0
  const CANVAS_HEIGHT: real := 450.0
  const PLAYER_LIFES: int := 5
  const LINES_OF_BRICKS: nat := 3
  const BRICKS_PER_LINE: nat := 20
  const BRICK_COUNT: nat := LINES_OF_BRICKS * BRICKS_PER_LINE
  const BRICK_MARGIN: real := 50.0
  const BRICK_SIZE: Vector2 := Vector2(CANVAS_WIDTH / BRICKS_PER_LINE as real, 20.0)
  const PLAYER_SIZE: Vector2 := Vector2(80.0, 20.0)
  const BALL_RADIUS: real := 7.0
  /** Height of the paddle centre, 7/8 of the way down the field. */
  const PLAYER_Y: real := CANVAS_HEIGHT * 7.0 / 8.0
  /** Height at which a ball that has not been launched rests. */
  const SERVE_Y: real := CANVAS_HEIGHT * 7.0 / 8.0 - 30.0
  const LAUNCH_SPEED: Vector2 := Vector2(0.0, -5.0)
  /** Horizontal speed given to a ball that meets the paddle at its very edge. */
  const STEERING: real := 5.0

  /** The paddle: its centre and the lives left (its size is PLAYER_SIZE). */
  datatype Player = Player(position: Vector2, life: int)

  /** The ball: centre, speed per frame, and whether it has been launched
      (its radius is BALL_RADIUS). */
  datatype Ball = Ball(position: Vector2, speed: Vector2, active: bool)

  /** Everything one frame reads and writes. The brick grid is kept row by row
      as one sequence of `active` flags: brick (row, col) is at index
      row * BRICKS_PER_LINE + col, the order in which the frame visits them. */
  datatype State = State(player: Player, ball: Ball, bricks: seq<bool>, pause: bool, gameOver: bool)

  /** The key pressed since the previous frame, if any. */
  datatype Key = NoKey | KeyDown(name: string)

  /** What the frame found a brick hit by, in the order the frame tries them. */
  datatype Hit = NoHit | HitBelow | HitAbove | HitLeft | HitRight

  /** The brick flags and the ball speed, the two things the brick sweep changes. */
  datatype Sweep = Sweep(bricks: seq<bool>, speed: Vector2)

  // ---------------------------------------------------------------- reset

  /** Puts the paddle, the ball and a full grid of bricks in their starting
      places; the pause and game-over flags are left as they are. */
  function Initialize(s: State): State
  {
    var player := Player(Vector2(CANVAS_WIDTH / 2.0, PLAYER_Y), PLAYER_LIFES);
    var ball := Ball(Vector2(player.position.x, player.position.y - 30.0), Vector2(0.0, 0.0), false);
    State(player, ball, seq(BRICK_COUNT, _ => true), s.pause, s.gameOver)
  }

  /** The state when the page has loaded: empty objects, both flags false,
      then Initialize. */
  function Start(): State
  {
    var nothing := Vector2(0.0, 0.0);
    Initialize(State(Player(nothing, 0), Ball(nothing, nothing, false), [], false, false))
  }

  // ---------------------------------------------------------------- paddle

  /** The paddle's centre for a pointer at pointerX: follow the pointer, then
      push the paddle back whole into the field. */
  function FollowX(pointerX: real): (x: real)
    ensures PLAYER_SIZE.x / 2.0 <= x <= CANVAS_WIDTH - PLAYER_SIZE.x / 2.0
    ensures x == pointerX <==> PLAYER_SIZE.x / 2.0 <= pointerX <= CANVAS_WIDTH - PLAYER_SIZE.x / 2.0
    ensures pointerX < PLAYER_SIZE.x / 2.0 ==> x == PLAYER_SIZE.x / 2.0
    ensures pointerX > CANVAS_WIDTH - PLAYER_SIZE.x / 2.0 ==> x == CANVAS_WIDTH - PLAYER_SIZE.x / 2.0
  {
    var clampedLeft := if pointerX - PLAYER_SIZE.x / 2.0 <= 0.0 then PLAYER_SIZE.x / 2.0 else pointerX;
    if clampedLeft + PLAYER_SIZE.x / 2.0 >= CANVAS_WIDTH then CANVAS_WIDTH - PLAYER_SIZE.x / 2.0 else clampedLeft
  }

  function FollowPointer(s: State, pointerX: real): State
  {
    s.(player := s.player.(position := s.player.position.(x := FollowX(pointerX))))
  }

  // ---------------------------------------------------------------- ball

  /** A ball not yet launched sits above the paddle and is launched upwards
      when fire is held; a launched ball moves by its speed. */
  function ServeOrMove(s: State, fire: bool): State
  {
    var b := s.ball;
    if !b.active then
      var resting := b.(position := Vector2(s.player.position.x, SERVE_Y));
      s.(ball := if fire then resting.(active := true, speed := LAUNCH_SPEED) else resting)
    else
      s.(ball := b.(position := Vector2(b.position.x + b.speed.x, b.position.y + b.speed.y)))
  }

  /** Touching the left or right wall reverses the horizontal speed; touching
      the ceiling reverses the vertical speed. */
  function CollideWalls(s: State): State
  {
    var b := s.ball;
    var vx := if b.position.x + BALL_RADIUS >= CANVAS_WIDTH || b.position.x - BALL_RADIUS <= 0.0
              then -b.speed.x else b.speed.x;
    var vy := if b.position.y - BALL_RADIUS <= 0.0 then -b.speed.y else b.speed.y;
    s.(ball := b.(speed := Vector2(vx, vy)))
  }

  /** Touching the floor stops the ball, puts it back to rest and costs a life. */
  function CollideFloor(s: State): State
  {
    if s.ball.position.y + BALL_RADIUS >= CANVAS_HEIGHT then
      s.(ball := s.ball.(speed := Vector2(0.0, 0.0), active := false),
         player := s.player.(life := s.player.life - 1))
    else s
  }

  /** The paddle's outline, centred on its position. */
  function PlayerRect(p: Vector2): Rectangle
  {
    Rectangle(p.x - PLAYER_SIZE.x / 2.0, p.y - PLAYER_SIZE.y / 2.0, PLAYER_SIZE.x, PLAYER_SIZE.y)
  }

  /** Horizontal speed after a paddle bounce: proportional to how far from the
      paddle's centre the ball met it, STEERING at either edge. */
  function Steer(ballX: real, playerX: real): (vx: real)
    ensures ballX == playerX ==> vx == 0.0
    ensures ballX == playerX + PLAYER_SIZE.x / 2.0 ==> vx == STEERING
    ensures ballX == playerX - PLAYER_SIZE.x / 2.0 ==> vx == -STEERING
    ensures vx > 0.0 <==> ballX > playerX
    ensures vx < 0.0 <==> ballX < playerX
  {
    ((ballX - playerX) / (PLAYER_SIZE.x / 2.0)) * STEERING
  }

  /** A ball that is falling and touches the paddle goes back up, steered by
      where it met the paddle. */
  function CollidePlayer(s: State): State
  {
    var b := s.ball;
    if CheckCollisionCircleRec(b.position, BALL_RADIUS, PlayerRect(s.player.position)) && b.speed.y > 0.0 then
      s.(ball := b.(speed := Vector2(Steer(b.position.x, s.player.position.x), -b.speed.y)))
    else s
  }

  // ---------------------------------------------------------------- bricks

  /** Centre of the brick in the given row and column, fixed when the grid is built. */
  function BrickCentre(row: nat, col: nat): Vector2
  {
    Vector2(col as real * BRICK_SIZE.x + BRICK_SIZE.x / 2.0, row as real * BRICK_SIZE.y + BRICK_MARGIN)
  }

  /** Centre of the brick at index i of the grid. */
  function CentreOf(i: nat): Vector2
  {
    BrickCentre(i / BRICKS_PER_LINE, i % BRICKS_PER_LINE)
  }

  /** The ball overlaps the brick's column, widened by two thirds of the radius. */
  ghost predicate OverlapsColumn(pos: Vector2, c: Vector2) {
    Abs(pos.x - c.x) < BRICK_SIZE.x / 2.0 + BALL_RADIUS * 2.0 / 3.0
  }

  /** The ball overlaps the brick's row, widened by two thirds of the radius. */
  ghost predicate OverlapsRow(pos: Vector2, c: Vector2) {
    Abs(pos.y - c.y) < BRICK_SIZE.y / 2.0 + BALL_RADIUS * 2.0 / 3.0
  }

  /** The four hit tests for a ball at pos with speed v against the brick
      centred at c, tried below, above, left, right; the first that holds wins.
      Each test asks whether the brick's edge lies between the ball's leading
      side at pos - v and at pos, v being the speed when the brick is tested,
      which the walls, the paddle or earlier bricks may already have reversed
      this frame: so pos - v need not be where the ball was before its move.
      A hit on a side needs the speed component pointing into that side and
      the ball overlapping the brick across the other axis. */
  function BrickHit(pos: Vector2, v: Vector2, c: Vector2): (h: Hit)
    ensures v == Vector2(0.0, 0.0) ==> h == NoHit
    ensures !OverlapsColumn(pos, c) && !OverlapsRow(pos, c) ==> h == NoHit
    ensures h == HitBelow ==>
              v.y < 0.0 && OverlapsColumn(pos, c) &&
              pos.y - BALL_RADIUS <= c.y + BRICK_SIZE.y / 2.0 < (pos.y - v.y) - BALL_RADIUS
    ensures h == HitAbove ==>
              v.y > 0.0 && OverlapsColumn(pos, c) &&
              (pos.y - v.y) + BALL_RADIUS < c.y - BRICK_SIZE.y / 2.0 <= pos.y + BALL_RADIUS
    ensures h == HitLeft ==>
              v.x > 0.0 && OverlapsRow(pos, c) &&
              (pos.x - v.x) + BALL_RADIUS < c.x - BRICK_SIZE.x / 2.0 <= pos.x + BALL_RADIUS
    ensures h == HitRight ==>
              v.x < 0.0 && OverlapsRow(pos, c) &&
              pos.x - BALL_RADIUS <= c.x + BRICK_SIZE.x / 2.0 < (pos.x - v.x) - BALL_RADIUS
  {
    var reach := BALL_RADIUS * 2.0 / 3.0;
    if pos.y - BALL_RADIUS <= c.y + BRICK_SIZE.y / 2.0
       && pos.y - BALL_RADIUS > c.y + BRICK_SIZE.y / 2.0 + v.y
       && Abs(pos.x - c.x) < BRICK_SIZE.x / 2.0 + reach
       && v.y < 0.0
    then HitBelow
    else if pos.y + BALL_RADIUS >= c.y - BRICK_SIZE.y / 2.0
       && pos.y + BALL_RADIUS < c.y - BRICK_SIZE.y / 2.0 + v.y
       && Abs(pos.x - c.x) < BRICK_SIZE.x / 2.0 + reach
       && v.y > 0.0
    then HitAbove
    else if pos.x + BALL_RADIUS >= c.x - BRICK_SIZE.x / 2.0
       && pos.x + BALL_RADIUS < c.x - BRICK_SIZE.x / 2.0 + v.x
       && Abs(pos.y - c.y) < BRICK_SIZE.y / 2.0 + reach
       && v.x > 0.0
    then HitLeft
    else if pos.x - BALL_RADIUS <= c.x + BRICK_SIZE.x / 2.0
       && pos.x - BALL_RADIUS > c.x + BRICK_SIZE.x / 2.0 + v.x
       && Abs(pos.y - c.y) < BRICK_SIZE.y / 2.0 + reach
       && v.x < 0.0
    then HitRight
    else NoHit
  }

  /** Brick i against the ball: an inactive brick is skipped; a hit brick is
      switched off and reverses the speed component across the side it was hit on. */
  function HitBrick(sw: Sweep, pos: Vector2, i: nat): (r: Sweep)
    requires i < |sw.bricks|
    ensures |r.bricks| == |sw.bricks|
    ensures !sw.bricks[i] ==> r == sw
    ensures r != sw <==> sw.bricks[i] && BrickHit(pos, sw.speed, CentreOf(i)) != NoHit
    ensures sw.bricks[i] && BrickHit(pos, sw.speed, CentreOf(i)) in {HitBelow, HitAbove} ==>
              r == Sweep(sw.bricks[i := false], Vector2(sw.speed.x, -sw.speed.y))
    ensures sw.bricks[i] && BrickHit(pos, sw.speed, CentreOf(i)) in {HitLeft, HitRight} ==>
              r == Sweep(sw.bricks[i := false], Vector2(-sw.speed.x, sw.speed.y))
    ensures r == sw ||
            (sw.bricks[i] && r.bricks == sw.bricks[i := false] &&
             ((sw.speed.y != 0.0 && r.speed == Vector2(sw.speed.x, -sw.speed.y)) ||
              (sw.speed.x != 0.0 && r.speed == Vector2(-sw.speed.x, sw.speed.y))))
  {
    if !sw.bricks[i] then sw
    else match BrickHit(pos, sw.speed, CentreOf(i))
      case NoHit => sw
      case HitBelow | HitAbove => Sweep(sw.bricks[i := false], Vector2(sw.speed.x, -sw.speed.y))
      case HitLeft | HitRight => Sweep(sw.bricks[i := false], Vector2(-sw.speed.x, sw.speed.y))
  }

  /** The first k bricks of the grid, visited in order, each seeing the speed
      left by the bricks before it. */
  function Pass(bricks: seq<bool>, pos: Vector2, speed: Vector2, k: nat): (r: Sweep)
    requires k <= |bricks|
    ensures |r.bricks| == |bricks|
    decreases k
  {
    if k == 0 then Sweep(bricks, speed)
    else HitBrick(Pass(bricks, pos, speed, k - 1), pos, k - 1)
  }

  function CollideBricks(s: State): State
  {
    var sw := Pass(s.bricks, s.ball.position, s.ball.speed, |s.bricks|);
    s.(bricks := sw.bricks, ball := s.ball.(speed := sw.speed))
  }

  // ---------------------------------------------------------------- frame

  function CheckLoss(s: State): State
  {
    if s.player.life <= 0 then s.(gameOver := true) else s
  }

  /** The part of a frame that runs while the game is neither over nor paused. */
  function Physics(s: State, pointerX: real, fire: bool): State
  {
    var moved := ServeOrMove(FollowPointer(s, pointerX), fire);
    CheckLoss(CollideBricks(CollidePlayer(CollideFloor(CollideWalls(moved)))))
  }

  /** One frame of the game for the pointer position, the fire button and the
      key pressed since the previous frame. */
  function Step(s: State, pointerX: real, fire: bool, key: Key): State
  {
    if !s.gameOver then
      var t := if key == KeyDown("p") then s.(pause := !s.pause) else s;
      if !t.pause then Physics(t, pointerX, fire) else t
    else if key == KeyDown("Enter") || fire then
      Initialize(s.(gameOver := false))
    else s
  }

  // ---------------------------------------------------------------- invariants

  /** Number of bricks still active. */
  function ActiveCount(bricks: seq<bool>): (n: nat)
    ensures n <= |bricks|
  {
    if bricks == [] then 0 else (if bricks[0] then 1 else 0) + ActiveCount(bricks[1..])
  }

  /** What holds of every state reachable from Start. */
  ghost predicate Inv(s: State) {
    && |s.bricks| == BRICK_COUNT
    && 0 <= s.player.life <= PLAYER_LIFES
    && (s.gameOver <==> s.player.life == 0)
    && !(s.pause && s.gameOver)
    && PLAYER_SIZE.x / 2.0 <= s.player.position.x <= CANVAS_WIDTH - PLAYER_SIZE.x / 2.0
    && s.player.position.y == PLAYER_Y
    && (!s.ball.active ==> s.ball.speed == Vector2(0.0, 0.0))
  }
}
