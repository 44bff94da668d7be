# Rusty snake: a verified model of the simulation core

This project models the simulation core of a single-file snake game
(`src/main.rs`) in Dafny and proves properties of it. The game runs on a
40 x 40 grid that wraps on both axes (a torus). The snake is a deque of
cells with the head at the front. On every due tick the head advances by
the current velocity and one of four things happens:

- **Win**: the next head is the apple and the body already has
  `GRID_SIZE * GRID_SIZE - 1` cells.
- **Grow**: the next head is the apple otherwise. The new head is pushed,
  nothing is popped, and a new apple is drawn at random until it is off the
  body.
- **Lose**: the next head is not the apple but is already in the body. The
  test runs before the tail is popped, so entering the tail's cell loses.
- **Move**: otherwise the tail is popped and the new head pushed.

Between ticks the arrow keys set the velocity (a reversal is accepted) and
Escape, Q or a quit event end the session.

Files and modules:

- `coords.dfy`, module `Coordinates`: the `Coords` value type, `clamp` (as
  the function `Clamped` and the step-by-step method `Clamp`), `+` (`Add`),
  `==` (`Eq`), and the grid and direction predicates.
- `input.dfy`, module `Input`: events and keys, the key-to-action match
  (`Control`), and the velocity after an event (`NextSpeed`).
- `snake.dfy`, module `Simulation`: the per-tick state `World`, the two
  rejection-sampling loops (`PickTail` for the initial tail, `SpawnApple`
  for the apple) with the functions that specify them (`FirstOffColumn`,
  `FirstFree`), the initial state `Seeded`, and the tick `Step`.
- `tick_lemmas.dfy`, module `TickProperties`: the four tick cases, the
  invariants a tick keeps, and worked examples.
- `occupancy.dfy`, module `Occupancy`: counting arguments. A body of
  distinct cells fits on the board. In every well-formed state growth
  leaves a free cell for the respawn loop, because growth happens only
  below the winning length. In a state with distinct cells and the apple
  off the body, a win means the body and the apple cover the whole board.
- `game.dfy`, module `Session`: the tick gate and the class `Game`, whose
  fields are the state the main loop updates in place. `Tick` is proved
  against `Step`. `Iterate` is one pass of the main loop: the gated tick,
  then the polled event.

Randomness is modelled as the stream of draws the generator will produce.
`Game.rng` holds that stream and every draw is a cell of the grid, which
is the range of `Coords::rand`. A rejection loop consumes draws until one
is acceptable. Its result is exactly the first acceptable draw, and every
draw before it was rejected.

Where the code can be read two ways, the model follows the code:

- The initial tail is redrawn only while its x equals the apple's x. The
  apple can therefore start on the body (`SeedMayCoverApple`). Turning
  back before the first tick then eats it inside the body, and the body
  holds a cell twice (`GrowingIntoBodyRepeatsCell`, `GrowthCanRepeatCell`).
  So "the apple is off the body" and "the body's cells are distinct" are
  not part of the invariant `WellFormed`, which bounds the length by
  `GRID_SIZE * GRID_SIZE - 1` and keeps every cell in the grid. They are
  proved to persist once they hold: the apple on its own
  (`StepKeepsAppleOffBody`) and both together (`StepKeepsBodyClear`).
- The tick gate is strict: a tick exactly 100 ms after the last one is not
  yet due.
- A body `(1,0), (0,0), (39,0)` heading left does not move to `(38,0)`.
  Its next head is `(0,0)`, which is in the body, so the game is lost.
  `WrapMoveExample` shows a wrapping move that does happen.

## Model

| member | source | states |
|---|---|---|
| `Coordinates.WrapAxis` | src/main.rs:55-60 | One axis of clamp adds or subtracts GRID_SIZE at most once. Values already in [0,40) are unchanged. Values in [-40,80) land in [0,40) and equal the value mod 40. Values outside that range stay outside [0,40). |
| `Coordinates.Clamped` | src/main.rs:53-68 | A coordinate in the grid is left unchanged. A coordinate with both axes in [-40,80) is brought into the grid. |
| `Coordinates.Clamp` | src/main.rs:53-68 | The in-place clamp, one axis test at a time, yields `Clamped` of its input and keeps each axis's value mod 40. |
| `Coordinates.ClampAxesIndependent` | src/main.rs:55-66 | Each axis's clamped value depends only on that axis. |
| `Coordinates.Add` | src/main.rs:35-39 | For a cell in the grid plus a delta with components in {-1,0,1}: the raw sums fit in i16, and the result is in the grid with each axis equal to the sum mod 40. |
| `Coordinates.AddWrapsAtEdges` | src/main.rs:35-39 | (0,0)+(-1,0) = (39,0) and (39,0)+(1,0) = (0,0), and the same on the y axis. |
| `Coordinates.AddNegateCancels` | src/main.rs:35-39 | Adding a step and then its negation returns to the starting cell. |
| `Coordinates.DirectionMoves` | src/main.rs:35-39 | A unit velocity always moves a cell to a different cell. |
| `Coordinates.Eq` | src/main.rs:45-48 | Componentwise equality holds exactly when the coordinates are equal. |
| `Input.Control` | src/main.rs:165-178 | The event ends the session exactly for a quit event, Escape or Q. It sets the velocity exactly for the four arrow keys, and always to a unit direction. |
| `Input.NextSpeed` | src/main.rs:165-178 | An arrow key event sets the velocity to exactly the vector `Control` selects for that key. Any other event leaves the velocity unchanged. A unit velocity stays a unit velocity. |
| `Input.ArrowVelocities` | src/main.rs:170-173 | Up, Left, Right and Down give (0,-1), (-1,0), (1,0) and (0,1), for key-down and key-up alike. |
| `Input.SteeringIsOneToOne` | src/main.rs:170-173 | Each unit direction is selected by exactly one key. |
| `Input.ReversalAccepted` | src/main.rs:165-176 | From any velocity some event selects the opposite velocity; a 180 degree turn is not rejected. |
| `Simulation.NextHead` | src/main.rs:128 | The next head of a body whose head is in the grid, moving at a unit velocity, is in the grid and differs from the current head. |
| `Simulation.Step` | src/main.rs:128-161 | The tick never yields Quit. It wins exactly when the next head is the apple at length 1599, and loses exactly when the next head is not the apple but is in the body. A terminal outcome leaves the state unchanged. A running tick puts the next head in front, keeps the speed, and grows the length by one exactly when the next head was the apple. The `TickProperties` lemmas state each case in full and the invariants a tick keeps. |
| `Simulation.FirstFree` | src/main.rs:142-149 | The index where the respawn loop stops is the first draw off the body, and every earlier draw is on the body. |
| `Simulation.SpawnApple` | src/main.rs:142-149 | The respawn loop returns the draw at `FirstFree`, which is off the body and in the grid, and uses exactly the draws up to it. |
| `Simulation.FirstOffColumn` | src/main.rs:89-93 | The index where the tail loop stops is the first draw whose x differs from the apple's, and every earlier draw shares the apple's x. |
| `Simulation.PickTail` | src/main.rs:89-93 | The tail loop, started from the apple itself, returns the draw at `FirstOffColumn`, whose x differs from the apple's. |
| `Simulation.Seeded` | src/main.rs:88-96 | The initial state has three cells, the first draw as the apple and speed (1,0). The tail is a later draw whose x differs from the apple's. The remaining draws are a proper suffix of the stream. |
| `TickProperties.SeededShape` | src/main.rs:88-96 | The seeded state is well formed. It has three distinct cells in a row on one line, in the order tail+speed+speed, tail+speed, tail. The speed is (1,0), the apple is the first draw, and the tail's x differs from the apple's x. |
| `TickProperties.SeedMayCoverApple` | src/main.rs:88-96 | Apple (5,5) with tail (4,5) seeds the body (6,5),(5,5),(4,5), which contains the apple. |
| `TickProperties.MoveStep` | src/main.rs:151-161 | Next head is not the apple and not in the body: the game runs on. The length is unchanged, the new front is old front + speed, and the rest is the old body without its last cell. The apple, speed and draws are unchanged. |
| `TickProperties.GrowStep` | src/main.rs:130-149 | Next head is the apple and the length is not the winning one: the length grows by one. The new front is the apple's cell and the whole old body, tail included, follows in order. The new apple is in the grid and off the new body. It is the first such draw, and the draws before it are consumed. |
| `TickProperties.LoseStep` | src/main.rs:151-157 | Next head is not the apple and is in the body: Lost, with the state unchanged. |
| `TickProperties.TailCollisionLoses` | src/main.rs:153-159 | Moving onto the current tail cell loses, because the test precedes the pop. |
| `TickProperties.WinStep` | src/main.rs:130-136 | Next head is the apple at length 1599: Won, with the state unchanged (no growth). |
| `TickProperties.StepPreservesWellFormed` | src/main.rs:128-161 | A tick that keeps the game running keeps every cell, the apple and the remaining draws in the grid, the length between three and 1599 and the speed a unit vector. |
| `TickProperties.StepKeepsBodyClear` | src/main.rs:128-161 | If the body's cells are distinct and the apple is off the body, a running tick keeps both facts. |
| `TickProperties.StepKeepsAppleOffBody` | src/main.rs:128-161 | If the apple is off the body, a running tick keeps it off, whether or not the body's cells are distinct. |
| `TickProperties.SeededFirstTailAccepted` | src/main.rs:88-96 | When the first draw after the apple has a different x, it becomes the tail, the body is the two cells ahead of it and the tail, and the draws after it remain. |
| `TickProperties.SeededWithAppleInside` | src/main.rs:88-96 | The draws (5,5),(4,5),(0,0) seed the body (6,5),(5,5),(4,5) with the apple at (5,5), speed (1,0) and the draw (0,0) left. |
| `TickProperties.GrowingIntoBodyRepeatsCell` | src/main.rs:130-139 | Growth does not test for collision: when the apple lies inside the body, eating it runs on, pushes the apple's cell in front of the whole old body, and the grown body's cells are not distinct. |
| `TickProperties.GrowthCanRepeatCell` | src/main.rs:130-139 | After the seeding above and a turn to the left, eating the apple gives the body (5,5),(6,5),(5,5),(4,5), whose cells are not distinct. |
| `TickProperties.EatExample` | src/main.rs:130-149 | Body (2,0),(1,0),(0,0) heading right onto the apple (3,0) becomes (3,0),(2,0),(1,0),(0,0), with a new apple in the grid and off the body. |
| `TickProperties.WrapMoveExample` | src/main.rs:151-161 | Body (0,0),(1,0),(2,0) heading left becomes (39,0),(0,0),(1,0). |
| `TickProperties.CollisionExample` | src/main.rs:153-157 | Body (5,5),(4,5),(4,4),(5,4) heading up re-enters its tail cell (5,4) and loses. |
| `Occupancy.FreeCellExists` | src/main.rs:142-149 | A body shorter than 1600 cells leaves some cell of the grid free for the respawn loop. |
| `Occupancy.GrowthLeavesFreeCell` | src/main.rs:130-149 | In every well-formed state, growth happens only below 1599 cells, because the win test runs first, and leaves a cell of the grid off the grown body. |
| `Occupancy.WinFillsBoard` | src/main.rs:130-136 | With distinct cells and the apple off the body, a win means the body plus the apple cover every cell of the grid. |
| `Occupancy.EveryCellDrawnCanTick` | src/main.rs:142-149 | In every well-formed state, if the generator produces every cell somewhere in its draws, the tick's respawn loop ends. |
| `Session.TickDue` | src/main.rs:112 | A tick is due only when at least 101 ms have passed since the last one, and never at or before the last tick's time. |
| `Session.TickGateIsStrict` | src/main.rs:112 | A tick is not due exactly 100 ms after the last tick, and is due 1 ms later. |
| `Session.TickGateIsMonotone` | src/main.rs:112 | Once a tick is due it stays due as time goes on. |
| `Session.Game.constructor` | src/main.rs:82-96 | The session starts in the state `Seeded` of the draws, and that state is well formed. |
| `Session.Game.Tick` | src/main.rs:128-161 | The in-place tick on the fields (push to the front, pop from the back, respawn) produces exactly `Step` of the old state and keeps the state well formed. |
| `Session.Game.Iterate` | src/main.rs:109-179 | One main-loop pass. If a tick is due, it records the time and ticks, and a Won or Lost outcome ends the pass. Otherwise the event is applied: quit gives Quit, an arrow key sets the velocity, anything else changes nothing. |

## Left out

- Rendering: SDL initialisation, the window caption, the video mode, surface fill and flip, and `as_sdl_rect`'s pixel projection. These are calls into a foreign library.
- Event polling: how `poll_event` obtains events. Only the mapping from an event to an action is modelled.
- The clock: `SystemTime` is an integer count of milliseconds given to `Iterate`. The comparison and the read that records the tick time are one reading `now`, not two.
- `println!` of the outcome: replaced by the returned `Outcome`.
- `rand::thread_rng`: the generator is the stream `rng` of its future draws. The uniform distribution is not modelled, only the range of each draw.
- The unbounded `'main` loop itself: `Session.Game.Iterate` models one pass. Repeating it until a terminal outcome is left to the caller.
- Coordinates.Add: the i16 width of `Coords` is not modelled, because in every reachable state the raw sums lie in [-1, 40]. `Add`'s contract proves that they fit in i16.
- Simulation.SpawnApple: requires that the stream of draws contains a cell off the body. The source's loop would instead keep drawing forever. Termination of random rejection sampling cannot be proved, and `Occupancy.EveryCellDrawnCanTick` gives a sufficient condition.
- Simulation.PickTail: requires that the stream contains a draw off the apple's column, for the same reason.
- Session.Game.constructor: requires that the stream contains a draw off the apple's column, as for `PickTail`.
- Session.Game.Tick: requires `CanTick`, that is, the stream of draws contains a cell off the grown body when the tick grows the snake. The reason is the one given for `SpawnApple`.
