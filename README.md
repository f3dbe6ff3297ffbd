# Arkanoid frame simulation in Dafny

A model of the game loop of a single-screen ball-and-paddle (Arkanoid) game
written for the browser in `script.js`. Each animation frame the loop

1. toggles pause on the "p" key (unless the game is over),
2. moves the paddle under the pointer and clamps it inside the 800-unit field,
3. holds a resting ball above the paddle and launches it on fire, or moves a
   launched ball by its speed,
4. bounces the ball off the side walls and the ceiling, and takes a life when
   it reaches the floor,
5. bounces a falling ball off the paddle, steering it by where it met the
   paddle,
6. tests every active brick of the 3×20 grid, row by row, against the ball
   (below, above, left, right, first match wins), switching a hit brick off and
   reversing one component of the speed, which the later bricks then see,
7. ends the game when no life is left; a game that is over restarts on Enter
   or fire.

The model has four modules:

- `Geometry` (`geometry.dfy`): vectors, rectangles and the circle-versus-
  rectangle collision test, with its meaning proved: it holds exactly when some
  point of the closed rectangle lies within the radius.
- `Simulation` (`simulation.dfy`): the game state as a value, each phase of a
  frame as a function, the brick sweep `Pass` as a fold that carries the ball
  speed from brick to brick, `Step` (one frame), `Initialize` (the reset) and
  the state invariant `Inv`.
- `Properties` (`properties.dfy`): lemmas about these functions: the clamp,
  serving and launching, the floor loss, the paddle bounce, the brick sweep,
  pause and game over, the invariant over any run of frames, and the grid
  layout.
- `Arkanoid` (`game.dfy`): class `Game` holding the loop's shared objects as
  fields and the bricks' `active` flags in an `array2<bool>`. Its methods update
  the fields in place in the source's order, with the nested brick loops and
  the refilling loops of the reset, and each is proved equal to the
  corresponding `Simulation` function; `Game.Step` also keeps `Inv`.

Numbers are `real`. The source compares `Math.sqrt(d) <= r`; the model
compares `r >= 0 && d <= r * r`, which agrees with it for every `d >= 0`.

A ball that falls through the floor stays where it fell, inactive, until the
next frame puts it back above the paddle; nothing keeps the ball inside the
field.

## Model

| member | source | states |
|---|---|---|
| `Geometry.NearestPoint` | script.js:72-79 | the clamped point lies in a well-formed rectangle, and is the centre itself when the centre is inside |
| `Geometry.CheckCollisionCircleRec` | script.js:71-91 | a hit needs a non-negative radius; a centre inside the rectangle always hits for any radius >= 0 |
| `Geometry.NearestPointIsNearest` | script.js:75-83 | no point of the rectangle is nearer to the centre than the clamped point |
| `Geometry.CollisionIffPointWithinRadius` | script.js:71-91 | the test holds iff radius >= 0 and some point of the closed rectangle is within the radius (boundary counts as a hit) |
| `Geometry.CollisionWithinReach` | script.js:81-88 | a hit puts the centre at most one radius outside the rectangle on each axis |
| `Simulation.FollowX` | script.js:105-109 | the paddle centre lies in [40, 760]; it equals the pointer x iff the pointer is in that range, else the nearer bound |
| `Simulation.Steer` | script.js:151-152 | steering is 0 at the paddle centre, +5 at its right edge, -5 at its left edge, and has the sign of the offset |
| `Simulation.BrickHit` | script.js:160-211 | zero speed, or a ball overlapping neither the brick's widened column nor its widened row, hits nothing; a hit on a side needs the speed component pointing into that side, overlap across the other axis, and the side's edge lying between the ball's leading side at pos − v and at pos, v being the speed when the brick is tested (walls, paddle or earlier bricks may already have reversed it, so pos − v need not be where the ball was before its move) |
| `Simulation.HitBrick` | script.js:159-211 | an inactive brick is skipped; the sweep changes iff the brick is active and one of the four tests fires; a hit from below or above switches exactly that brick off and negates the vertical speed, one from the left or right negates the horizontal speed; a change always negates a non-zero component |
| `Simulation.Pass` | script.js:157-214 | the sweep keeps the number of bricks |
| `Properties.PassLeavesLaterBricks` | script.js:157-214 | bricks not yet visited keep their flag |
| `Properties.PassNeverRevives` | script.js:157-214 | the sweep never switches a brick on |
| `Properties.PassKeepsSpeedMagnitude` | script.js:157-214 | bricks only reverse speed components, never change their size |
| `Properties.PassWithoutHitKeepsSpeed` | script.js:157-214 | a sweep that switches no brick off leaves the speed unchanged |
| `Properties.PassMissingAll` | script.js:157-214 | when no brick's test fires, the sweep changes nothing |
| `Properties.PassAtRest` | script.js:161-211 | a ball with zero speed hits no brick |
| `Properties.CollideBricksOnlyDestroys` | script.js:157-214 | the brick phase changes only brick flags and speed, never revives a brick, never raises the active count, keeps speed magnitudes, and keeps the speed when nothing is hit |
| `Properties.CollideWallsTurnsInward` | script.js:127-132 | any side-wall contact negates the horizontal speed and any ceiling contact the vertical one, whichever way the ball moves, so a ball moving into a wall is sent back into the field; magnitudes kept; no contact, no change |
| `Properties.CollidePlayerBounce` | script.js:141-154 | the speed changes iff the ball touches the paddle while falling; it then becomes (Steer(ball x, paddle x), −vertical speed), whose horizontal part is at most 5·47/40 in size; nothing else changes |
| `Properties.StepPause` | script.js:99-102 | "p" toggles pause only while the game is not over; nothing else touches it |
| `Properties.PausedStepFreezes` | script.js:99-104 | a paused frame leaves paddle, ball, bricks, lives and game-over unchanged |
| `Properties.GameOverWaits` | script.js:218-224 | once over, a frame without Enter or fire changes nothing |
| `Properties.GameOverRestarts` | script.js:218-224 | once over, Enter or fire restarts with 5 lives, all 60 bricks active, a resting ball above the paddle |
| `Properties.StepClampsPaddle` | script.js:105-109 | after a running frame the paddle is in [40, 760], at the pointer exactly when the pointer is in range |
| `Properties.StepMovesActiveBall` | script.js:121-124 | a launched ball moves by exactly its speed in the frame |
| `Properties.StepKeepsBallOnPaddle` | script.js:111-116 | a resting ball without fire stays at rest at (paddle x, 363.75) with zero speed |
| `Properties.StepLaunchesBall` | script.js:111-120 | fire launches a resting ball at speed (0, -5) from (paddle x, 363.75), not moved further that frame and hitting nothing |
| `Properties.StepLosesBallAtFloor` | script.js:133-138 | reaching the floor zeroes the speed, deactivates the ball, costs exactly one life, and ends the game in the same frame iff no life is left |
| `Properties.StepNeverRevivesBricks` | script.js:157-214 | a frame of a game that is not over never revives a brick nor raises the active count |
| `Properties.StartSatisfiesInv` | script.js:321-344 | the loaded page satisfies the invariant, with 60 active bricks, 5 lives, neither paused nor over |
| `Properties.StepPreservesInv` | script.js:99-224 | every frame keeps lives in 0..5, game over iff no lives, never paused and over at once, paddle in the field, a resting ball without speed |
| `Properties.RunPreservesInv` | script.js:93-224 | any sequence of frames keeps the invariant |
| `Properties.EveryRunSatisfiesInv` | script.js:93-224 | from the start, after any frames, lives stay in 0..5 and the game is never paused and over at once |
| `Properties.RunWithoutResetNeverRevives` | script.js:157-214 | across frames in which the game is not over, the active-brick count never grows |
| `Properties.InitializeLayout` | script.js:321-344 | the reset gives 5 lives, a centred paddle, a resting ball 30 above it, 60 active bricks, and keeps the flags |
| `Properties.BrickGridTiles` | script.js:336-340 | the columns run edge to edge from 0 to 800 and adjacent bricks share an edge, in both directions |
| `Properties.BrickColumnsDisjoint` | script.js:336-340 | bricks of one row in different columns never overlap |
| `Arkanoid.Game.constructor` | script.js:53-63 | the new game is the loaded page's state |
| `Arkanoid.Game.Initialize` | script.js:321-344 | the fields and the refilled grid equal `Initialize` of the old state |
| `Arkanoid.Game.FollowPointer` | script.js:105-109 | the new state is the paddle-follow phase of the old one |
| `Arkanoid.Game.ServeOrMove` | script.js:111-124 | the new state is the serve-or-move phase of the old one |
| `Arkanoid.Game.CollideWalls` | script.js:127-138 | the new state is the wall and floor phases of the old one |
| `Arkanoid.Game.CollidePlayer` | script.js:141-154 | the new state is the paddle phase of the old one |
| `Arkanoid.Game.TestBrick` | script.js:159-211 | the grid and speed after testing brick (y, x) are `HitBrick` of those before |
| `Arkanoid.Game.CollideBricks` | script.js:157-214 | the nested loops leave grid and speed equal to the sweep `Pass` over all 60 bricks |
| `Arkanoid.Game.Step` | script.js:99-224 | the new state is `Step` of the old state and the inputs, and the invariant is kept |

## Left out

- Drawing (script.js:94-97 and 226-286): a stateless reflection of the state onto the canvas.
- The event listeners (script.js:292-319) and `requestAnimationFrame` (script.js:288): the pointer x, the fire button and the key pressed since the last frame are parameters of `Step`; clearing the key after each frame (script.js:289) is the key being a per-frame parameter. The mouse-up handler's `!event.button === 0` is part of this plumbing.
- IEEE double arithmetic, `Math.sqrt`, and undefined or NaN values: numbers are reals, the uninitialised pointer position (script.js:46) is not modelled, and the reset's `{ x: 0, x: 0 }` speed (script.js:327) is modelled as (0, 0); the ball is at rest until a launch overwrites its speed.
- The extra frame that `initialize` runs at once by calling `gameLoop()` itself (script.js:346), together with the early `return` after a restart (script.js:222): `Step`'s restart branch is the reset alone, so after a restart, and after loading, the source runs one more frame with the same inputs (a held fire relaunches the ball straight away) that the model leaves to the next call of `Step`.
- Paddle size and ball radius are constants rather than fields, and brick centres are computed from row and column rather than stored: `initialize` sets them and nothing ever changes them.
- Emptying the brick list and pushing 60 new bricks (script.js:331-344) is modelled as writing `true` into every cell of the fixed 3×20 array.
- No claim that the ball stays inside the field or cannot pass through a brick: the code never moves the ball back after a bounce.
- The unused `circleX` and `circleY` (script.js:1-2).
