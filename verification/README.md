# Rainbow Brick Breaker — a verified model of the game logic

Rainbow Brick Breaker is a browser brick-breaker. A 465 × 100 grid of
one-pixel blocks fills the top of a 465 × 465 field, and each column has its
own hue. Balls fly through the field, and each sub-step of a ball's motion
that lands on a live block removes that block. The block then falls as
debris. If the mouse-driven paddle catches a falling block, that block
becomes a new ball. A ball that leaves the bottom of the field, and a falling
block that does the same, is marked and then swept out of its list. The
animation stops when the last block is gone.

This project models the game logic of `game.js`. The modules are:

- `Particles`: the particle record, used for blocks, balls and debris.
- `Grid`: class `Blocks`, which holds the grid slots in an array. Its
  constructor fills the grid and `RemoveParticle` clears one slot.
- `Geometry`: the field constants, the point-in-rectangle test and the
  paddle clamp.
- `Sweep`: the mark-then-`indexOf`/`splice` removal of marked objects.
- `Physics`: the per-particle decisions of a tick, written as functions.
- `Tick`: the ball pass of a tick as functions of values. `SubStepTurn` is
  one sub-step, `BallSteps` is one ball's sub-steps and `BallPass` is all
  balls in turn. The ball-pass methods `SubStep`, `StepBall` and
  `StepBalls` are proved equal to them, and through `BallPass` so are the
  grid and the falling blocks `BallPhase` and `Update` leave. The other
  `Game` methods are stated against the `Physics` and `Sweep` functions.
- `Game`: class `RainbowBrickBreaker`. Its methods update the balls, the
  falling blocks, the mark lists and the grid the way `update` and the
  mouse handler do.

The source compares objects by identity. In the model each particle instead
carries an `id`:

- A grid block's `id` is its array slot.
- A ball's `id` comes from a counter.

`indexOf` and `splice` are modelled by `id`. The game invariant keeps the ids
of the balls distinct, and likewise the ids of the falling blocks. Under that
invariant, sweeping a list equals filtering out every marked particle
(`Sweep.Without`).

The grid lookup follows the code of `getParticle`, not its doc comment.
The comment (game.js:50) says the lookup returns `null` when the
coordinates are out of bounds. The code (game.js:53-54) tests only that
the linear index `x + y * width` lies inside the array. So column `width`
of row `y` reads column 0 of row `y + 1`, and column -1 reads the last
column of the row above. `Grid.Blocks.GetParticleAliases` states this
behaviour.

Values the source takes from the browser enter as parameters:

- `Math.random`: the start ball's velocity and the velocities of new
  balls.
- `Math.cos(...) * 3`: the `vx` of a struck block, one value per sub-step.
- `Math.sqrt`: a ball's speed, given as an input `speed` with
  `speed * speed == vx * vx + vy * vy`.
- `deltaTime`.
- The mouse position.

## Model

| member | source | states |
|---|---|---|
| Grid.Blocks.constructor | game.js:29-44 | the grid has `width * height` slots, every slot is live, and `count` is `width * height` |
| Grid.Blocks.FullGridIsInitial | game.js:36-43 | while nothing has been removed, every grid position (i, j) reads a block at (i, j) whose identity is its slot and whose colour is the hue `360 * i / width` |
| Grid.Blocks.GetParticle | game.js:52-58 | the lookup is out of range exactly when the linear index `x + y * width` leaves the array; otherwise it reads the slot at that index |
| Grid.Blocks.GetParticleInGrid | game.js:52-58 | a position inside the grid always reads its own slot, and a live slot holds the block of that column and row |
| Grid.Blocks.GetParticleOutOfRange | game.js:52-58 | the lookup is `null` exactly when the linear index leaves the array; a valid column with a row outside the grid is always `null` |
| Grid.Blocks.GetParticleAliases | game.js:53-54 | column `x + width` of row `y` reads the same as column `x` of row `y + 1`, because the bounds test is on the linear index only |
| Grid.Blocks.RemoveParticle | game.js:67-75 | returns the live block at the position and clears exactly its slot, decrementing `count`; on an empty slot or an index outside the array it returns nothing and changes nothing; `count` stays the number of live slots |
| Grid.RemoveTwice | game.js:67-75 | a second removal at the same position returns nothing, so `count` drops by at most one |
| Grid.Blocks.ClearedIffEmpty | game.js:225 | `count == 0` exactly when no slot holds a block, and `count` stays within `[0, width * height]` |
| Grid.LiveCountUpdate | game.js:70-72 | writing a value into one slot changes the number of live slots by the difference in liveness between the new and the old value, so clearing a live slot lowers it by exactly one |
| Grid.LiveCountZero | game.js:225 | no live slot is left exactly when the live count is zero |
| Grid.LiveCountFull | game.js:32-43 | every slot is live exactly when the live count equals the number of slots |
| Grid.IndexInverse | game.js:41-53 | an in-grid column and row are recovered from the linear index by `%` and `/` of the width |
| Grid.IndexDecompose | game.js:53-54 | a slot index inside the array splits into a column inside `[0, width)` and a row inside `[0, height)` that address it |
| Geometry.HitTestPoint | game.js:256-262 | the point is a hit exactly when its offsets from the top-left corner lie within `[0, width]` and `[0, height]`, edges included |
| Geometry.HitTestPointEdges | game.js:257 | all four edges of a rectangle of non-negative size count as inside, and a point beyond any edge does not |
| Geometry.ClampBarX | game.js:118-126 | the paddle's left edge ends within `[0, WIDTH - bar.width]`; a legal request is kept; otherwise it ends at the nearer bound |
| Geometry.ClampBarXNearest | game.js:121-125 | the clamped position is the legal position closest to the request |
| Geometry.ClampBarXIdempotent | game.js:121-125 | clamping a clamped position changes nothing |
| Physics.Advance | game.js:156-157 | only the position changes, each coordinate by its velocity component times the scale `deltaTime / ballSpeed` |
| Physics.ParseInt | game.js:158 | the cell coordinate is the ball's coordinate truncated toward zero |
| Physics.Reflect | game.js:167-172 | only the velocity changes. Past the left edge the ball ends moving right and past the right edge moving left; above the top edge it ends moving down; inside the field nothing changes |
| Physics.ReflectNeverOutward | game.js:167-172 | after the wall check no ball is outside an edge and still moving away from the field |
| Physics.Bounce | game.js:176-179 | on the paddle (below its top edge and inside it) `vy` becomes non-positive with the same magnitude; elsewhere the ball is unchanged |
| Physics.Decide | game.js:165-179 | the strike, wall and paddle decisions change only the velocity |
| Physics.DecideStrike | game.js:165 | inside the field and off the paddle, a strike reverses `vy` and keeps `vx`, and without a strike neither changes |
| Physics.DecideOnPaddle | game.js:165-179 | a ball on the paddle after a sub-step leaves it moving up or level, whether or not it also struck a block |
| Physics.DecideKeepsSpeed | game.js:165-179 | a sub-step's strike, wall and paddle decisions keep position, identity and colour, and they keep the magnitude of each velocity component |
| Physics.SubStepKeepsSpeed | game.js:153-179 | a ball's speed (the square root of `vx² + vy²`) is the same after every sub-step, so the sub-step count fixed at the start of the tick stays exact |
| Physics.Debris | game.js:160-164 | the struck block keeps its identity, position and colour, and falls with `vx` the scatter and `vy = 1` |
| Physics.Fall | game.js:194-196 | one tick of a falling block's motion under gravity; its properties are stated by `Physics.FallMotion` |
| Physics.FallMotion | game.js:194-196 | `vy` first grows by `0.1 * deltaTime`; the block then moves by `vx * deltaTime` across and by the new `vy * deltaTime` down; nothing else changes |
| Physics.FallAll | game.js:193-196 | every falling block moves, in order, keeping its identity and colour |
| Physics.NewBall | game.js:200-203 | a caught block's ball has `vx` in `[0, 10)` and `vy` in `[1, 10)` |
| Physics.CaughtOf | game.js:199 | the caught blocks are exactly the blocks of the list inside the paddle, and there are no more of them than blocks |
| Physics.Spawned | game.js:199-204 | the balls the debris pass appends, one per caught block; their properties are stated by `Physics.SpawnedMatchesCaught` and `Physics.SpawnedStep` |
| Physics.Expired | game.js:199-208 | the marks the debris pass pushes; their properties are stated by `Physics.ExpiredMembers` and `Physics.ExpiredStep` |
| Physics.SpawnedMatchesCaught | game.js:199-204 | the debris pass adds exactly one ball per caught block, in block order, at the block's position and in its colour, with fresh consecutive identities |
| Physics.ExpiredMembers | game.js:199-208 | a falling block is marked exactly when it is caught or below the field |
| Physics.SurvivorsOfDebrisPass | game.js:193-218 | after the debris pass and its sweep, exactly the falling blocks that were neither caught nor below the field remain |
| Sweep.Without | game.js:185-190 | the particles no mark names, in order; never longer than the list |
| Sweep.WithoutMembers | game.js:185-190 | a particle survives a sweep exactly when it was in the list and is not marked |
| Sweep.WithoutConcat | game.js:185-190 | sweeping keeps the survivors in their original order |
| Sweep.WithoutOneMore | game.js:185-190 | sweeping with one more mark is sweeping that mark afterwards, which is what each `forEach` step does |
| Sweep.WithoutSameMarks | game.js:185-190 | only the set of marks matters, so a ball marked on several sub-steps is removed once |
| Sweep.WithoutNothing | game.js:185-192 | with no marks, nothing is removed |
| Sweep.WithoutDistinct | game.js:185-190 | a sweep keeps identities distinct and never lengthens the list |
| Sweep.SpliceIsWithout | game.js:186-188 | `splice(indexOf(p), 1)` on a list of distinct objects removes exactly `p` |
| Sweep.KeepUnmarked | game.js:186-187 | a mark naming an object no longer in the list (`indexOf` is -1) removes nothing |
| Sweep.IndexOf | game.js:186 | returns the first position holding the object, or -1 exactly when the object is absent |
| Sweep.SweepMarked | game.js:185-192 | the mark-then-splice loop leaves the list without every marked object, in order and with identities still distinct |
| Game.RainbowBrickBreaker.constructor | game.js:84-104 | a full 465 × 100 grid, the paddle centred, one white ball in the middle with `vx = 10u` and `vy = 9v - 1`, no falling blocks and no marks |
| Game.RainbowBrickBreaker.MoveBar | game.js:115-127 | the paddle is centred under the mouse, clamped to the field |
| Game.RainbowBrickBreaker.Strike | game.js:158-164 | a live block under the ball is removed: its slot is cleared, `count` drops by one, and the block is appended to the falling blocks with its colour and the scattered `vx`; the result says whether this happened; on an empty slot or outside the array nothing changes |
| Game.RainbowBrickBreaker.SubStep | game.js:156-179 | the ball moves, strikes the live block under it if there is one, and reflects and bounces. A struck block's slot is cleared, `count` drops by one and the block is appended as debris keeping its colour. The ball is marked exactly when it is below the field. The game invariant is kept. The new ball, slots, falling blocks and marks are exactly `Tick.SubStepTurn` of the old ones |
| Game.RainbowBrickBreaker.StepBall | game.js:153-183 | the loop runs `SubSteps(speed)` times, and the new ball, slots, falling blocks and marks are exactly `Tick.BallSteps` of the old ones over that many sub-steps. The other balls are unchanged, and the ball keeps its identity, colour and speed. Every block struck is added to the falling blocks, as many as `count` drops: each added block was live at the slot its identity names and keeps its colour, with `vy = 1` and a `vx` in `[-3, 3]` (`TakenFrom`), and exactly those blocks' slots are emptied (`ClearedBy`). Only this ball is marked, and it is marked if it ends below the field. A ball at rest changes nothing |
| Game.RainbowBrickBreaker.StepBalls | game.js:152-184 | the new balls, slots, falling blocks and marks are exactly `Tick.BallPass` of the old ones. Every ball keeps its identity, colour and speed. Each added falling block was a live block, at the slot its identity names, with its colour, `vy = 1` and a `vx` in `[-3, 3]` (`TakenFrom`). The new slots are the old ones with exactly those blocks' slots emptied (`ClearedBy`). Every mark names a ball, and a moving ball that ends below the field is marked |
| Game.RainbowBrickBreaker.SweepBalls | game.js:185-192 | the balls become the old balls without the marked ones, and the mark list is emptied |
| Game.RainbowBrickBreaker.StepFallingBlock | game.js:194-208 | the block falls under gravity. If the paddle catches it, one ball is appended at its position in its colour and the block is marked. Otherwise it is marked exactly when it is below the field |
| Game.RainbowBrickBreaker.StepDebris | game.js:193-209 | every falling block moves, the balls appended are exactly `Spawned` of the moved blocks, and the marks pushed are exactly `Expired` of them |
| Game.RainbowBrickBreaker.SweepFallBlocks | game.js:211-218 | the falling blocks become the old ones without the marked ones, and the mark list is emptied |
| Game.RainbowBrickBreaker.BallPhase | game.js:152-192 | the slots and the falling blocks become those of `Tick.BallPass` of the old state, and the balls become the pass's balls without the ones it marked. The mark list is left empty and `count` never rises |
| Game.RainbowBrickBreaker.DebrisPhase | game.js:193-218 | with `moved` every falling block after gravity, the balls gain exactly `Spawned(moved)` and the falling blocks become `moved` without `Expired(moved)`. No remaining falling block is caught or below the field |
| Game.RainbowBrickBreaker.Update | game.js:152-247 | one tick keeps the game invariant and leaves no marks. The new slots are those of `Tick.BallPass` of the old state. The new balls are the pass's unmarked balls followed by the balls spawned from the fallen debris. The new falling blocks are the fallen debris that was neither caught nor below the field. The paddle does not move and `count` never rises. Another frame is requested exactly when `count != 0`, that is, exactly when some block is left |
| Tick.SubSteps | game.js:155 | the loop `for (i = 0; i < ballSpeed; i++)` runs the least natural number of times that is not below the speed |
| Tick.SubStepsUnique | game.js:155 | a counter that has just failed `i < ballSpeed` after passing it each time before equals `SubSteps(speed)` |
| Tick.SubStepsFit | game.js:155 | `m` scatter values cover the sub-steps whenever `m` is not below the speed |
| Tick.SubStepTurn | game.js:156-179 | one sub-step keeps the ball's identity and colour and the number of grid slots |
| Tick.BallSteps | game.js:155-180 | a ball's sub-steps keep its identity and colour and the number of grid slots |
| Tick.SubStepFacts | game.js:156-179 | one sub-step keeps the ball's identity and colour and the number of slots, appends at most one falling block, lowers the live count by the number appended, and marks the ball exactly when it ends below the field |
| Tick.SubStepMarks | game.js:173-175 | one sub-step keeps the ball's identity and pushes its mark exactly when it ends below the field |
| Tick.BallStepsFrame | game.js:155-180 | a ball's sub-steps keep its identity and colour, only append falling blocks and marks, and lower the live count by the number of falling blocks appended |
| Tick.BallStepsKeepSpeed | game.js:153-180 | a ball's sub-steps keep its speed |
| Tick.LeftFieldWitness | game.js:173-175 | a ball that left the field during its sub-steps did so after a particular sub-step `i`, where `0 < i <= n` |
| Tick.LeftFieldFrom | game.js:173-175 | a sub-step that ends below the field makes the ball one that left the field |
| Tick.LeftFieldMeans | game.js:173-175 | a ball left the field exactly when some sub-step among its first `n` ends below the field |
| Tick.BallStepsMarkNames | game.js:173-175 | every mark a ball's sub-steps push names that ball |
| Tick.BallStepsMarkWhen | game.js:173-175 | a ball's sub-steps push a mark exactly when the ball left the field during them |
| Tick.HasIdAppend | game.js:164 | appending a particle adds its identity and no other |
| Tick.HasIdConcat | game.js:164 | two runs of particles hold an identity exactly when one of them does |
| Tick.SubStepDebris | game.js:158-164 | a sub-step adds exactly `Debris(block, scatter)` when the cell under the moved ball holds a live block, and nothing otherwise; that block was live at the slot its identity names, and the grid afterwards has exactly that slot emptied |
| Tick.ComposeWorlds | game.js:155-184 | a world reached in two stages of strikes is reached from the first world in one: all blocks added were live in the first grid and exactly their slots are emptied |
| Tick.ComposeTaken | game.js:155-180 | two runs of strikes, one after the other, take all their blocks from the first grid and empty exactly their slots |
| Tick.BallStepsDebris | game.js:155-180 | every block a ball's sub-steps add was live in the grid before them, and the grid afterwards is that grid with exactly those blocks' slots emptied |
| Tick.BallPassDebris | game.js:152-184 | every block the whole ball pass adds was live in the grid before it, and the grid afterwards is that grid with exactly those blocks' slots emptied |
| Tick.BallPass | game.js:152-184 | the pass over the first `k` balls keeps the number of balls and leaves every ball from `k` on as it was |
| Tick.PassMarksStep | game.js:152-184 | ball `k`'s turn keeps the earlier marks, every mark it pushes names ball `k`, and it pushes one exactly when ball `k` left the field |
| Tick.PassMarkOld | game.js:174 | a later ball's turn leaves each earlier mark in place |
| Tick.PassMarkNew | game.js:174 | a mark pushed during ball `k - 1`'s turn names that ball, which left the field |
| Tick.BallPassMarksNamed | game.js:152-184 | every mark the pass pushes names a ball that left the field during its sub-steps |
| Tick.PassMarksKeep | game.js:174 | a later ball's turn keeps every earlier mark |
| Tick.PassMarksLeft | game.js:173-175 | a ball that left the field is marked by the end of its own turn |
| Tick.BallPassMarksAll | game.js:152-184 | every ball that left the field during its sub-steps is marked by the end of the pass |
| Grid.Blocks.SlotIdsHold | game.js:36-43 | in a valid grid every live slot's block carries that slot as its identity |
| Physics.FallAllIs | game.js:193-196 | a list holding each falling block after gravity, position by position, is `FallAll` of the list |
| Physics.SpawnedStep | game.js:199-204 | one more block through the debris pass appends at most one ball, whose identity follows those already spawned |
| Physics.ExpiredStep | game.js:199-208 | one more block through the debris pass pushes at most its own mark |
| Physics.DebrisStepPrefix | game.js:193-209 | moving block `k` of the list extends the processed prefix by that block, so the balls and the marks grow by its share |

## Left out

- Drawing: the canvas, the off-screen canvas, the pixel buffer, the trails, the paddle fill and the "CLEAR!" text are not modelled.
- Frame timing: `Date.now`, the `deltaTime` normalisation and `requestAnimationFrame`/`cancelAnimationFrame` are not modelled. `deltaTime` is a parameter of a tick, and the frame request is the result of `Update`.
- Floating point: all arithmetic is on exact reals. `Math.sqrt` is an input (`IsSpeedOf`).
- Strike scatter: the struck block's `vx`, `Math.cos(ballRadius + Math.PI * 2 / (30 * Math.random()) - 15) * 3`, is not computed. It enters as one input per sub-step, bounded by `[-3, 3]` (`ScatterRange`), so `Math.atan2`, `Math.cos` and the `Math.random` draw inside it are not modelled.
- `Math.random` for balls: the start ball's `u` and `v` are parameters in `[0, 1)` (a constructor precondition). Each catch's `ux(k)` and `uy(k)` is an unconstrained parameter of `StepDebris`, `DebrisPhase` and `Update`. Only `Physics.SpawnedMatchesCaught` and `Physics.NewBall`'s bounds assume they lie in `[0, 1)`.
- `hsv2rgb` is not part of this model. A grid colour is named by its hue (`Hue(360 * i / width)`), and the starting ball's `[255, 255, 255]` is `White`.
- Physics.ParseInt: `parseInt` of a number whose string is in exponent notation (below `1e-6` or from `1e21`) is not modelled. Truncation toward zero is used for every value.
- DOM wiring: the mousemove listener and `canvas.offsetLeft` are not modelled. `MoveBar` takes the mouse and canvas positions as parameters.
- The `Particle` constructor has no operation of its own: a particle is a datatype value.
