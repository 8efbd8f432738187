# Ball-physics kernel of a CodeBall strategy, in Dafny

This project models the physics core of a CodeBall bot (MyStrategy.cpp and
linal.h) and proves properties of it:

- **Vector algebra** (`Linal`, linal.h): `vec2` and `vec3` as datatypes, with
  `len`, `normal`, `dist`, `dot`, `project`, `deviation`, the static `clamp`
  and the operators as functions. `MutableVec2` and `MutableVec3` are classes
  whose methods model the members that overwrite the object (`normalize`, the
  in-place `clamp`, unary minus, `+=`, `-=`, `*=`, `/=`). Each of these methods
  is proved against the matching function.
- **The world** (`World`): the arena (half-extents, as `init` stores it), the
  rules the kernel reads, `Entity`, `TouchInfo` and `sign`.
- **The collision probe** (`Collision`, `CollisionRegions`): `CheckArenaCollision`
  as a tree of per-region functions, with the same branches, the same order
  and the same arithmetic as the source. Two behaviours of the source are kept
  as written:
  - line 339 compares the signed `x` with a bound;
  - line 351 reports the normal (0, 1, 0) on the goal floor beside a post.

  `GoalFloorNormalUp` shows that pushing the ball out along that normal moves
  it downward.
- **Integration** (`Integrator`): `move` (clamp the speed, then fly under
  gravity), the push-out and bounce of one micro-step, and `BallTick` as a
  value (`BallTicked`). The lemmas relate these: flights compose, the bounce
  law holds, and free micro-steps add up to the full step.
- **The strategy state** (`Strategy`): the statics of the source and the
  `MyStrategy` members `m_bots` and `m_ready` are the fields of one class.
  - `BallTick` updates the world ball in place.
  - `Init` models `init`.
  - `Refresh` models the part of `act` that refreshes the world once per game
    tick. It simulates the ball until every robot of the roster has had it
    within reach, for at most 1000 ticks.
  - `Readiness` is proved against a trajectory of the ball. The flags it leaves
    are the robots the ball reached at some tick of the trajectory. It stops
    at the first tick at which every robot is flagged, or at the horizon.
- **The keeper choice** (`Team`): the argmin loop of `init` as a function.
  The lemmas prove that it picks the first of the teammates closest to home.
- **`PerfCounter`** (`Perf`): a class over a 16-slot array. Its invariant ties
  the ring buffer and the running sum to the sequence of all values pushed.
  `get` is the average of the last sixteen of them.

All arithmetic is on mathematical reals, so floating-point rounding is not
modelled. `std::sqrt` is the parameter `sqrt: real -> real`, constrained by
`IsSqrt` (non-negative, and squaring gives back its argument). Dafny has no
built-in square root on `real`, and a bodiless function would be an axiom.
Square roots are unique (`SqrtUnique`), so every result is the one the real
square root gives.

Divisions the source performs without a guard become preconditions:
- `sign(0)` divides by zero;
- normalising the zero vector divides by zero;
- component-wise `Div` and `DivAssign` need every component of the divisor
  non-zero, and `DivBy` and `DivByAssign` a non-zero scalar;
- `Init` requires `0 < ticks_per_second` and `0 < microticks_per_tick`, the
  divisors of lines 469-470;
- `ProbeDefined` rules out the positions where the probe divides by zero (the
  mid-height of the central column and a goal-post axis). It also adds a shape
  and a size assumption the source does not state: a valid arena and
  `0 < radius <= min(bottom_radius, top_radius)`;
- `TickDefined` and `TicksDefined` state the same for one tick and for a run of
  ticks.

## Model

| member | source | states |
|---|---|---|
| Linal.Vec2.Len | linal.h:36-38 | the length is non-negative and its square is the sum of the squared components |
| Linal.Vec3.Len | linal.h:193-195 | the length is non-negative and its square is the sum of the squared components |
| Linal.Vec2.Normal | linal.h:46-53 | `normal()` of a non-zero vector has length one, and scaling it by the old length gives the vector back |
| Linal.Vec3.Normal | linal.h:203-210 | `normal()` of a non-zero vector has length one, and scaling it by the old length gives the vector back |
| Linal.Vec2.Clamp | linal.h:95-103 | the static `clamp` never exceeds the limit; it leaves a vector within the limit unchanged and brings a longer one to exactly the limit |
| Linal.Vec3.Clamp | linal.h:252-260 | the static `clamp` never exceeds the limit; it leaves a vector within the limit unchanged and brings a longer one to exactly the limit |
| Linal.ZeroLen2 | linal.h:96-98 | a vec2 of length zero is the zero vector, so the `0 == div` branch returns the vector it was given |
| Linal.ZeroLen3 | linal.h:253-255 | a vec3 of length zero is the zero vector `vec3()` |
| Linal.LenDivided2 | linal.h:101-102 | dividing every component by `d > 0` divides the length by `d` |
| Linal.LenDivided3 | linal.h:258-259 | dividing every component by `d > 0` divides the length by `d` |
| Linal.DividedScale2 | linal.h:46-49 | the component-wise division of `normal()` is undone by scaling back |
| Linal.DividedScale3 | linal.h:203-206 | the component-wise division of `normal()` is undone by scaling back |
| Linal.ClampZero | linal.h:252-255 | clamping the zero vector gives the zero vector |
| Linal.ClampDirection2 | linal.h:95-103 | a vector longer than the limit is clamped along its own direction: scaling by `len / limit` recovers it |
| Linal.ClampDirection3 | linal.h:252-260 | a vector longer than the limit is clamped along its own direction: scaling by `len / limit` recovers it |
| Linal.DotSymmetric2 | linal.h:63-69 | `dot` is symmetric |
| Linal.DotSymmetric3 | linal.h:220-226 | `dot` is symmetric |
| Linal.DistSymmetric2 | linal.h:55-61 | `dist(a, b)` is the length of `a - b` and equals `dist(b, a)` |
| Linal.DistSymmetric3 | linal.h:212-218 | `dist(a, b)` is the length of `a - b` and equals `dist(b, a)` |
| Linal.ProjectResidualOrthogonal3 | linal.h:228-230 | what vec3 `project` leaves over is orthogonal to the direction |
| Linal.ProjectIdempotent3 | linal.h:228-230 | projecting a projection again changes nothing |
| Linal.DeviationPythagoras3 | linal.h:236-239 | the squared `deviation` plus the squared projected component is the squared length |
| Linal.Project2Unnormalised | linal.h:71-73 | vec2 `project` dots with `other` itself, so it is the true projection scaled by `other.len()` |
| Linal.SubUndoesAdd2 | linal.h:110-136 | `-` undoes `+`, and `+` is commutative |
| Linal.SubUndoesAdd3 | linal.h:267-293 | `-` undoes `+`, and `+` is commutative |
| Linal.DivUndoesMul2 | linal.h:120-144 | the component-wise `/` undoes the component-wise `*` for non-zero components |
| Linal.DivUndoesMul3 | linal.h:277-301 | the component-wise `/` undoes the component-wise `*` for non-zero components |
| Linal.DivByUndoesScale2 | linal.h:146-165 | `v * s / s == v` for `s != 0` |
| Linal.DivByUndoesScale3 | linal.h:303-322 | `v * s / s == v` for `s != 0` |
| Linal.NegInvolutive2 | linal.h:105-108 | negating twice is the identity, and `a + (-a)` is zero |
| Linal.NegInvolutive3 | linal.h:262-265 | negating twice is the identity, and `a + (-a)` is zero |
| Linal.MutableVec2.constructor | linal.h:29-34 | the new object holds the given components |
| Linal.MutableVec2.Normalize | linal.h:40-44 | the object becomes its `normal()`, which has length one, and the new value is returned as `*this` |
| Linal.MutableVec2.Clamp | linal.h:84-93 | the in-place `clamp` leaves the value the static `clamp` returns |
| Linal.MutableVec2.Negate | linal.h:105-108 | unary minus negates the object itself |
| Linal.MutableVec2.AddAssign | linal.h:110-113 | `+=` leaves the sum in the object |
| Linal.MutableVec2.SubAssign | linal.h:115-118 | `-=` leaves the difference in the object |
| Linal.MutableVec2.MulAssign | linal.h:120-123 | `*=` leaves the component-wise product in the object |
| Linal.MutableVec2.DivAssign | linal.h:125-128 | `/=` leaves the component-wise quotient in the object |
| Linal.MutableVec2.ScaleAssign | linal.h:146-149 | `*= s` scales the object |
| Linal.MutableVec2.DivByAssign | linal.h:151-154 | `/= s` divides the object |
| Linal.MutableVec3.constructor | linal.h:176-181 | the new object holds the given components |
| Linal.MutableVec3.Normalize | linal.h:197-201 | the object becomes its `normal()`, which has length one, and the new value is returned as `*this` |
| Linal.MutableVec3.Clamp | linal.h:241-250 | the in-place `clamp` leaves the value the static `clamp` returns |
| Linal.MutableVec3.Negate | linal.h:262-265 | unary minus negates the object itself |
| Linal.MutableVec3.AddAssign | linal.h:267-270 | `+=` leaves the sum in the object |
| Linal.MutableVec3.SubAssign | linal.h:272-275 | `-=` leaves the difference in the object |
| Linal.MutableVec3.MulAssign | linal.h:277-280 | `*=` leaves the component-wise product in the object |
| Linal.MutableVec3.DivAssign | linal.h:282-285 | `/=` leaves the component-wise quotient in the object |
| Linal.MutableVec3.ScaleAssign | linal.h:303-306 | `*= s` scales the object |
| Linal.MutableVec3.DivByAssign | linal.h:308-311 | `/= s` divides the object |
| World.Halved | MyStrategy.cpp:459-461 | `init` halves the arena's width, height and depth and changes nothing else |
| World.Sign | MyStrategy.cpp:19-22 | `sign(v)` is -1 for negative and 1 for positive `v` |
| World.SignValue | MyStrategy.cpp:19-22 | the quotient `v / abs(v)` is exactly that sign |
| Perf.PerfCounter.constructor | MyStrategy.cpp:28-35 | the zero-initialised counter is valid and has seen nothing |
| Perf.PerfCounter.Push | MyStrategy.cpp:37-51 | `push` keeps the invariant (the ring holds the last `size` values in order, `sum` is their sum, `index` is the count modulo 16); the value is appended and `size` saturates at 16 |
| Perf.PerfCounter.Get | MyStrategy.cpp:53-56 | `get` is the truncated average of the last sixteen (or fewer) values pushed |
| Perf.AverageBounded | MyStrategy.cpp:53-56 | that average lies between the smallest and the largest value in the window |
| Perf.TruncDiv | MyStrategy.cpp:55 | C++ integer division truncates toward zero, for either sign of the dividend |
| Perf.SumBounded | MyStrategy.cpp:33-48 | the running sum of values in `[lo, hi]` lies between `n * lo` and `n * hi` |
| Perf.WindowAfterPush | MyStrategy.cpp:39-49 | once sixteen values are held, a push drops the oldest one and appends the new one; before that it only appends |
| Perf.SlotsAfterPush | MyStrategy.cpp:45-50 | writing at `index` and advancing it cyclically keeps each recent value `k + 1` slots behind the index |
| Collision.Flat | MyStrategy.cpp:129-140 | a flat leaf reports its fixed unit normal when the depth is positive, and depth 0 otherwise |
| Collision.RoundedEdge | MyStrategy.cpp:142-155 | a rounded edge seen from inside penetrates by `len + radius - blend` when that is positive, along a unit normal |
| Collision.RoundedSeam | MyStrategy.cpp:385-401 | a convex seam penetrates by `radius + blend - len` when that is positive, along a unit normal |
| Collision.ColumnLeaf | MyStrategy.cpp:112-125 | the central column probes the nearer of floor and ceiling; the depth is non-negative, with a unit normal when positive |
| Collision.CornerOffset | MyStrategy.cpp:186-188 | the horizontal offset from a corner axis is non-zero in `z` |
| Collision.CornerCylinder | MyStrategy.cpp:190-203 | the vertical corner blend reports a non-negative depth, with a unit normal when positive |
| Collision.CornerCap | MyStrategy.cpp:205-260 | above or below the corner cylinder: the flat cap or its rounded rim, with a unit normal when penetrating |
| Collision.CornerLeaf | MyStrategy.cpp:183-261 | the four vertical corners report a non-negative depth, with a unit normal when positive |
| Collision.GoalMouthLeaf | MyStrategy.cpp:317-336 | the goal floor and the mouth's top edge report a non-negative depth, with a unit normal when positive |
| Collision.GoalTopSeamOffset | MyStrategy.cpp:385-392 | the offset that line 393 measures is never the zero vector |
| Collision.GoalPostOffset | MyStrategy.cpp:340-342 | the horizontal offset from a goal post's axis is non-zero off that axis |
| Collision.GoalFloorCorner | MyStrategy.cpp:344-369 | the goal floor beside a post reports a non-negative depth, with a unit normal when positive |
| Collision.GoalSeamLeaf | MyStrategy.cpp:339-402 | the post seams, the floor beside them and the goal's top seam report a non-negative depth, with a unit normal when positive |
| Collision.SideRegion | MyStrategy.cpp:112-181 | the column, the side walls, their edges and the floor report a non-negative depth, with a unit normal when positive |
| Collision.EndWall | MyStrategy.cpp:265-276 | the end wall above the goal reports a non-negative depth, with a unit normal when positive |
| Collision.EndWallRegion | MyStrategy.cpp:263-302 | the end wall, the ceiling over it and their edge report a non-negative depth, with a unit normal when positive |
| Collision.GoalRegion | MyStrategy.cpp:304-404 | in front of and inside the goal: a non-negative depth, with a unit normal when positive |
| Collision.CheckArenaCollision | MyStrategy.cpp:102-405 | the probe never reports a negative depth, and it reports a unit normal whenever it reports penetration |
| CollisionRegions.ColumnProbe | MyStrategy.cpp:112-125 | in the central column the probe measures the nearer of floor and ceiling, and reports no contact between them |
| CollisionRegions.SideWallProbe | MyStrategy.cpp:126-140 | between the side walls' edge blends the wall is the plane `abs(x) == width`, with the normal along `x` |
| CollisionRegions.FloorProbe | MyStrategy.cpp:157-168 | on the flat floor (here and in front of the goal, lines 304-315) the floor is the plane `y == 0`, with the downward normal |
| CollisionRegions.GoalFloorNormalUp | MyStrategy.cpp:344-352 | beside a goal post the probe reports the upward normal, so the push-out of line 431 moves the ball further down |
| Integrator.FlightVel | MyStrategy.cpp:96 | only the vertical velocity changes in a flight, by `-g*dt` |
| Integrator.FlightTrapezoid | MyStrategy.cpp:94-96 | the position update is the old position plus the mean of the old and new velocity times `dt`, which is exact under constant gravity |
| Integrator.FlightCompose | MyStrategy.cpp:94-96 | two flights in a row are one flight over the summed time |
| Integrator.FlightFromRest | MyStrategy.cpp:94-96 | a flight from rest only falls by `g*dt^2/2` |
| Integrator.FallSum | MyStrategy.cpp:95 | the gravity drop over `s + t` splits into the drops over `s` and `t` plus `g*s*t` |
| Integrator.Moved | MyStrategy.cpp:91-97 | `move` changes only position and velocity; it flies with the clamped velocity, whose speed is within the limit |
| Integrator.Move | MyStrategy.cpp:91-97 | the imperative `move` on the entity's vectors gives `Moved` |
| Integrator.Fly | MyStrategy.cpp:94-96 | the two in-place vector updates give the flight's position and velocity |
| Integrator.MovesCompose | MyStrategy.cpp:91-97 | two moves make one move over the summed time while the speed limit does not cut in |
| Integrator.Bounce | MyStrategy.cpp:432-440 | a velocity not moving into the surface is kept; otherwise `(1 + e) * v` of the normal is removed |
| Integrator.BounceLaw | MyStrategy.cpp:432-440 | for a unit normal, the normal component is scaled by `-e` and the tangential part is kept |
| Integrator.BounceSeparates | MyStrategy.cpp:432-440 | for a unit normal and `0 <= e`, the bounced velocity does not move into the surface |
| Integrator.MicroStep | MyStrategy.cpp:425-442 | one micro-step is a move, then, on penetration, a push-out by the depth along the normal and a bounce |
| Integrator.MicroTicks | MyStrategy.cpp:424-443 | the micro-step loop keeps the ball's radius, mass, restitution and touch flag |
| Integrator.BallTicked | MyStrategy.cpp:410-447 | `BallTick` changes only the ball's position and velocity: radius, mass, restitution and touch flag are kept |
| Integrator.QuietStep | MyStrategy.cpp:428-429 | a micro-step that probes no penetration is a plain move |
| Integrator.DriftCollapse | MyStrategy.cpp:424-443 | micro-steps that fly free are one move over their total time |
| Integrator.FreeFlightNoSubsteps | MyStrategy.cpp:410-447 | when the micro-steps would fly free and add up to the full step, the full step probes no penetration, so `BallTick` never sub-steps and is the full step |
| Integrator.FullStepQuiet | MyStrategy.cpp:413-416 | when `n > 0` free micro-steps add up to the time step, the full step's probe is defined and reports no penetration |
| Integrator.MicroStepSeparates | MyStrategy.cpp:431-440 | with `0 <= arena_e`, a micro-step that probes penetration leaves the ball not moving into the surface, an approaching normal component coming out scaled by `-arena_e` |
| Integrator.SubstepsReachFull | MyStrategy.cpp:424-443 | `n` free micro-steps that add up to the time step end where the full step does |
| Integrator.MicroTicksStep | MyStrategy.cpp:424-443 | the `n`-th micro-step extends the first `n - 1` |
| Team.Pick | MyStrategy.cpp:472-493 | the keeper loop's choice is `-1` with the bound, or a teammate strictly closer than the bound at its own distance |
| Team.PickIsFirstClosest | MyStrategy.cpp:472-493 | the loop picks the first teammate closest to home when one is closer than the bound, and nobody otherwise |
| Team.FirstClosestUnique | MyStrategy.cpp:488-492 | at most one robot is the first of the closest teammates |
| Team.HomeDists | MyStrategy.cpp:486-487 | the distances the loop compares are each robot's distance to the home position |
| Team.EnlistedIndex | MyStrategy.cpp:479-485 | every roster entry `init` adds points at the world slot of a teammate with that id |
| Team.EnlistedKeys | MyStrategy.cpp:480-484 | `init` adds exactly the ids of the teammates to the roster |
| Strategy.Observed | MyStrategy.cpp:520-521 | taking in the ball sets its position and velocity and keeps its constants |
| Strategy.Tracked | MyStrategy.cpp:516-517 | taking in a robot sets its slot's position and velocity and keeps its constants |
| Strategy.RobotEntity | MyStrategy.cpp:476-479 | the entity pushed per robot is at rest at the origin, with the robots' mass and restitution |
| Strategy.Crowned | MyStrategy.cpp:494 | `m_bots[keeper].role = Keeper` adds the keeper id if absent, makes it keeper, and leaves the other entries alone |
| Strategy.Flagged | MyStrategy.cpp:534-541 | the flagged robots are roster entries |
| Strategy.ReadyBy | MyStrategy.cpp:530-544 | the robots flagged after a trajectory are roster entries |
| Strategy.ReadyByMeans | MyStrategy.cpp:530-544 | a robot is flagged after a trajectory exactly when the ball came within its reach at one of its points |
| Strategy.ReadyByGrows | MyStrategy.cpp:534-542 | flags are never cleared during the loop: readiness after a prefix is contained in readiness after the whole trajectory |
| Strategy.ReadyByAppend | MyStrategy.cpp:526-544 | one more tick flags the robots that have the new ball within reach |
| Strategy.ReadyBySameSlots | MyStrategy.cpp:530-544 | readiness depends on the roster only through its ids and world slots |
| Strategy.FlagOne | MyStrategy.cpp:541-542 | setting one flag adds exactly that id to the flagged robots and raises the count by one |
| Strategy.SubsetFull | MyStrategy.cpp:546 | `m_bots.size() == m_ready` means every robot is flagged, since the flagged ones are a subset of the roster |
| Strategy.Trajectory | MyStrategy.cpp:524-526 | the simulated trajectory has one ball per tick |
| Strategy.TrajectoryStep | MyStrategy.cpp:526 | each ball of the trajectory is one `BallTick` after the one before it, the first one after the starting ball |
| Strategy.TrajectoryPrefix | MyStrategy.cpp:524-526 | the first `k` balls of a trajectory are the trajectory of `k` ticks |
| Strategy.TrajectoryAt | MyStrategy.cpp:524-526 | ball `k - 1` of a trajectory is the ball after `k` ticks |
| Strategy.BallAtNext | MyStrategy.cpp:526 | the ball after `t + 1` ticks is `BallTick` of the ball after `t` ticks |
| Strategy.NeverFullPrefixes | MyStrategy.cpp:546-549 | the loop's not-yet-stopped predicate holds exactly when no earlier tick flagged the whole roster |
| Strategy.Visited | MyStrategy.cpp:530-544 | once every roster entry is visited, the robots within reach have been added to the flags, and the count counts the flags |
| Strategy.Strategy.constructor | MyStrategy.cpp:11-17 | the statics as the program starts: no robots, an empty roster, tick `-1` |
| Strategy.Strategy.BallTick | MyStrategy.cpp:410-447 | the in-place `BallTick` leaves the world ball at `BallTicked` of the old one |
| Strategy.Strategy.Substeps | MyStrategy.cpp:424-443 | the micro-step loop gives `MicroTicks` |
| Strategy.Strategy.MicroPass | MyStrategy.cpp:426-442 | one pass of the micro-step loop gives `MicroStep` |
| Strategy.Strategy.Resolve | MyStrategy.cpp:431-441 | on penetration the ball is pushed out by the depth along the normal and its velocity bounced |
| Strategy.Strategy.ResetReadiness | MyStrategy.cpp:508-512 | the counter and every flag are cleared, and nothing else in the roster changes |
| Strategy.Strategy.Ingest | MyStrategy.cpp:514-521 | world slot `i` takes robot `i`'s position and velocity, later slots are untouched, and the ball takes the observed ball's |
| Strategy.Strategy.Observe | MyStrategy.cpp:507-521 | after clearing and taking in, the roster is unflagged with the same slots, and the world holds the tick's robots and ball |
| Strategy.Strategy.FlagReached | MyStrategy.cpp:530-545 | the roster loop adds exactly the robots within reach to the flags, keeps ids, slots and roles, and the counter counts the flags |
| Strategy.Strategy.FlagIfReached | MyStrategy.cpp:532-543 | one pass of the roster loop keeps its invariant with one id fewer to visit |
| Strategy.Strategy.FlagTick | MyStrategy.cpp:530-547 | after flagging for the new ball, the flags are readiness after the extended trajectory; the loop breaks exactly when every robot is flagged |
| Strategy.Strategy.FlagStep | MyStrategy.cpp:530-547 | flagging while not every robot is ready keeps the loop's state, including that no earlier tick filled the roster |
| Strategy.Strategy.Advance | MyStrategy.cpp:526 | the ball moves on to the next ball of the trajectory |
| Strategy.Strategy.TickStep | MyStrategy.cpp:526-547 | one pass advances the ball by a tick and brings the flags up to that tick |
| Strategy.Strategy.TickLoop | MyStrategy.cpp:524-550 | the loop runs 1 to 1000 ticks; it stops early only when every robot is ready, and the flags are readiness over the ticks run |
| Strategy.Strategy.Readiness | MyStrategy.cpp:523-550 | the ball ends at the last simulated tick; the flags are the robots reached on the way, counted by `m_ready`; the loop stops at the first tick that readies everyone, or after 1000 |
| Strategy.Strategy.NewTick | MyStrategy.cpp:507-550 | a new tick keeps the roster's ids, slots and roles, takes in the robots, and simulates 1 to 1000 ticks, fewer only if every robot became ready |
| Strategy.Strategy.Refresh | MyStrategy.cpp:506-553 | the first call for a tick refreshes the world and the readiness; a repeated call for the same tick changes nothing; `s_tick` ends at the current tick |
| Strategy.Strategy.Init | MyStrategy.cpp:456-495 | `init` stores the rules with the arena halved, the home and goal positions, the time steps and the ball's constants, pushes one entity per robot, and makes the first closest teammate keeper |
| Strategy.Strategy.EnlistRobots | MyStrategy.cpp:472-493 | the robot loop pushes an entity per robot, enlists the teammates, and returns the keeper id `Pick` chooses |
| Strategy.Strategy.EnlistOne | MyStrategy.cpp:474-492 | one pass of the robot loop extends the world, the roster and the running argmin by one robot |

## Left out

- Floating point: all arithmetic is on reals. Rounding, overflow to infinity and NaN are not modelled.
- `std::sqrt` is a parameter constrained by `IsSqrt`, not a definition.
- The `MY_DEBUG` timing code: `std::chrono` and the calls that feed `perf`. Only `PerfCounter` itself is modelled.
- Perf.PerfCounter.Push: the `int64_t` sum is an unbounded integer, so 64-bit overflow of `sum` is not modelled.
- The `fixed` flag and the no-op `v = v` branch of `BallTick` (lines 423, 435-438) are left out; they change nothing.
- The unused `radius` of line 528 and the static `home_r` of line 499 are not modelled; nothing reads them.
- The action `act` writes (lines 555-564) is not modelled. This includes `m_bots[me.id]`, which creates a roster entry for an unknown id.
- `act` calling `init` at tick 0 (lines 501-504) is not composed with Refresh. `Init` and `Refresh` are separate methods.
- The iteration order of `m_bots` is left abstract: the roster loop visits the ids in any order, and the result does not depend on it.
- The `_deg` and `_r` literals, the swizzles `xy`, `xz` and `yz`, and the static helper overloads of linal.h that only forward to members are not modelled.
- The static `simple_box` of `CheckArenaCollision` (lines 104-108) is inlined as its three half-extents (`width - top_radius`, `height`, `depth - corner_radius`), which lines 112-117 and 188 read. Its once-only static initialisation is not modelled.
- Collision.CheckArenaCollision: its requires `ProbeDefined` excludes three kinds of input, and the model says nothing about them. (1) An entity with `radius <= 0` or a radius above `bottom_radius` or `top_radius`. (2) An arena that fails `ArenaValid`. (3) The points where the source divides by zero: `pos.y == height` inside the central column (the division by `abs(normal.y)` at line 118) and points on a goal-post axis. Only (3) is a limit of the source itself. (1) and (2) are shape and size assumptions the source does not make.
- Strategy.Strategy.Readiness: it requires `BallTick` to be defined for all 1000 ticks from the observed ball. The source only needs the ticks the loop actually runs.
- Strategy.Strategy.NewTick: it requires the same 1000 defined ticks as Readiness.
- Strategy.Strategy.NewTick: its ensures do not restate which robots are flagged. Readiness states that.
- Strategy.Strategy.Refresh: it requires the same 1000 defined ticks for a new tick.
- Strategy.Strategy.Refresh: it requires `m_ready` to count the flags on entry, as every earlier call leaves it.
- Strategy.Strategy.Refresh: its ensures do not restate which robots are flagged. Readiness states that.
- Strategy.Strategy.Ingest: it requires at least as many world slots as robots. With more robots the source writes past the end of `s_world.bots`, which is undefined behaviour.
- Linal.Vec2.Clamp: it requires a positive limit, since the source divides by the limit.
- Linal.Vec3.Clamp: it requires a positive limit, for the same reason.
- Strategy.Strategy.Init: its ensures state the time steps as the exact quotients `1 / TICKS_PER_SECOND` and `timestep / MICROTICKS_PER_TICK`.
- Strategy.Strategy.Init: `s_entity_e` is `(MAX_HIT_E - MAX_HIT_E) / 2`, which is always 0, and the ensures say so.
- Strategy.Strategy.Init: it keeps the source's phantom roster entry with id `-1` (line 494). That entry is created when no teammate is closer to home than the halved depth.
