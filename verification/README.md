# Pool table physics and shot controls in Dafny

This project models the core of a small OpenGL pool game. It has two parts.

**The physics (`src/Colisoes.cpp`).** `SimularColisoes` keeps a persistent
accumulator and runs fixed sub-steps of 1/120 s while the accumulator holds
one. Each sub-step:

- rebuilds a uniform broad-phase grid of 10 x 22 cells (`updateSpatialGrid`);
- then takes every active ball in index order through five stages:
  1. it integrates the ball: gravity, translation, friction, the stop snap, rolling spin and the floor bounce;
  2. it collides the ball with each active higher-indexed neighbour found in the 3x3 cell block around it;
  3. it reflects the ball off the pocket-mouth guards;
  4. it reflects the ball off the cushions;
  5. it tests the ball against the pockets. A captured cue ball goes back on its spot and raises the positioning flag. A captured object ball leaves play.

**The game rules (`src/main.cpp`).** These cover:

- the opening rack of 16 balls;
- the ping-pong shot-power meter;
- charging and firing with the P key, and the aiming toggle on T;
- cue-ball positioning with the arrow keys;
- the camera-mode machine on the C key;
- the scroll-wheel zoom clamp.

Modelling choices:

- **Floats and vectors.** Floats are idealised as `real`. `glm::vec3` and `glm::vec2` are the datatypes `Vec3` and `Vec2`.
- **Square root.** The one foreign numeric routine the physics needs is the square root behind `glm::length`. It is a function parameter `sqrt`, constrained by `IsSqrt` to be an exact non-negative root.
- **Angles.** The angles the C key computes with `atan2` are parameters. So is the aiming direction the P key builds with `sin` and `cos`.
- **Degenerate cases.** The source normalises a zero vector in two situations that arise at run time:
  - two ball centres coincide;
  - a ball centre lies exactly on a wall segment.

  The floats then become NaN. The model does not exclude these situations with preconditions. Instead it returns the error value `Outcome.Degenerate`, and the simulation stops there.
- **Zero-length walls.** A wall segment of zero length is fixed table data, not a run-time event. The model treats it as `Degenerate` too; this is the model's own choice. The source divides 0/0 there, never normalises, and skips the wall (see the `SegmentCollision.HitSegment` line under "## Left out").
- **Ball radii.** The only precondition the physics places on its input is that every ball has a positive radius. The integrator divides by the radius, and radii never change.

Each operation is paired with a property that does not restate it:

- **Grid.** The grid is proved equal to a reference bucket definition. Every active ball sits in exactly one sorted bucket.
- **Ball collisions.**
  - The pair selection visits each partner `j > i` at most once.
  - A collision conserves momentum and restores contact.
  - It reverses the approach speed, scaled by the restitution coefficient.
  - It lowers the sum of squared speeds by exactly `(1 - e^2)/2 * proj^2`, so for unit masses the kinetic energy drops by `(1 - e^2)/4 * proj^2`.
- **Walls.**
  - The clamped projection is the nearest point of the segment.
  - A wall contact leaves the ball exactly one radius away, so a second test is a no-op.
  - The reflection reverses the normal speed and scales the speed by `e`.
- **Scheduler.** It runs exactly `floor(accumulator * 120)` sub-steps and leaves less than one sub-step behind.
- **Whole simulation.** It never re-activates a ball, never takes the cue ball out of play, and parks every pocketed ball.
- **Rules.**
  - The shot meter stays in `[0, 100]`.
  - A fired shot's speed lies in `[0.5, 12]`.
  - The camera restores exactly the saved view.
  - Only Enter or Space ends cue-ball positioning.

Where the source's comment and code disagree, the code is followed. At `src/main.cpp:2083` the comment says a C press in the menu camera goes to the look-at camera. The code immediately re-tests and switches on, so the menu goes straight to the free camera (`Camera.NextMode`).

## Model

| member | source | states |
|---|---|---|
| Numeric.Trunc | src/Colisoes.cpp:33-34 | the truncating float-to-int cast: for non-negative input the greatest integer not above it, for negative input the least integer not below it |
| Numeric.ClampInt | src/Colisoes.cpp:35-36 | the integer clamp lands in [lo, hi], is the identity inside and the nearer bound outside |
| Numeric.ClampReal | src/Colisoes.cpp:137 | the float clamp lands in [lo, hi], is the identity inside and the nearer bound outside |
| Numeric.Length | src/Colisoes.cpp:115 | glm::length of a 3-D vector is non-negative, squares to the dot product and is zero exactly for the zero vector |
| Numeric.Length2 | src/Colisoes.cpp:140 | glm::length of a plane vector is non-negative, squares to the dot product and is zero exactly for the zero vector |
| Numeric.RootBelow | src/Colisoes.cpp:141 | comparing a length with a non-negative radius (strictly or not) is the same as comparing their squares |
| Vectors.Normalize | src/Colisoes.cpp:119 | glm::normalize of a non-zero vector is a unit vector that, scaled by the length, gives the vector back |
| Vectors.Normalize2 | src/Colisoes.cpp:143 | the plane normalisation is a unit vector that, scaled by the length, gives the vector back |
| GameObjects.GridDimensions | src/Colisoes.cpp:18-20 | the derived grid has 10 columns and 22 rows |
| SpatialGrid.Column | src/Colisoes.cpp:33-35 | the column of any x coordinate is a valid column index |
| SpatialGrid.Row | src/Colisoes.cpp:34-36 | the row of any z coordinate is a valid row index |
| SpatialGrid.UpdateSpatialGrid | src/Colisoes.cpp:29-39 | the rebuilt grid equals the reference grid (each bucket lists exactly the active balls filed there, in index order) and has the right shape with indices in range |
| SpatialGrid.BucketMembers | src/Colisoes.cpp:31-37 | an index is in a bucket if and only if its ball is active and its clamped cell is that bucket |
| SpatialGrid.BucketIncreasing | src/Colisoes.cpp:31-37 | every bucket lists its indices in strictly increasing order |
| SpatialGrid.GridOfWellFormed | src/Colisoes.cpp:30-37 | the grid has GridCols x GridRows buckets and every listed index is a valid ball index |
| SpatialGrid.ActiveBallInExactlyOneBucket | src/Colisoes.cpp:31-38 | an active ball is in the bucket of its own cell and in no other; an inactive ball is in none; buckets are sorted |
| SpatialGrid.CellContainsPoint | src/Colisoes.cpp:33-36 | for a centre on the table the clamp never fires: the cell's extent contains the centre |
| Integrator.ApplyForces | src/Colisoes.cpp:62-65 | gravity lowers the vertical speed by g dt, the position advances by the updated velocity, and friction scales the horizontal velocity by 0.99, keeping its direction (so the squared horizontal speed scales by 0.99^2) |
| Integrator.SnapHorizontal | src/Colisoes.cpp:67-71 | below the stop threshold (and only then) both horizontal components become 0; otherwise the velocity is unchanged; afterwards the ball is either stopped or at least at the threshold |
| Integrator.RollingVelocity | src/Colisoes.cpp:73-86 | the spin has no vertical component and is zero at or below the threshold |
| Integrator.RollingWithoutSlipping | src/Colisoes.cpp:73-78 | above the threshold the contact point has no horizontal velocity, the spin axis is perpendicular to the motion and spin times radius equals the horizontal speed |
| Integrator.FloorBounce | src/Colisoes.cpp:88-96 | a ball below the felt is lifted onto it and its vertical speed reversed and damped by e (zeroed below the threshold); afterwards the ball is never below the felt and its vertical speed never grows |
| Integrator.Integrate | src/Colisoes.cpp:62-96 | the integration stage of a sub-step leaves the ball on or above the felt, keeps its identity, leaves it stopped or above the threshold, and makes its spin the rolling spin of its new velocity (the later pair push of the same sub-step may still move the ball) |
| Integrator.NoSpinAtRest | src/Colisoes.cpp:83-86 | a ball with no horizontal velocity gets no spin |
| Integrator.FrictionSlows | src/Colisoes.cpp:64-65 | friction never increases the horizontal speed |
| Integrator.SnappedBallRests | src/Colisoes.cpp:67-86 | a ball slowed below the threshold by friction ends the integration stage with no horizontal velocity and no spin |
| Integrator.SlowBallStops | src/Colisoes.cpp:62-86 | a ball already below the threshold ends the integration stage stopped, with no spin |
| BallCollision.Resolve | src/Colisoes.cpp:119-130 | the push and impulse conserve the sum of positions and of velocities, keep identities and spins, and leave a separating pair's velocities alone |
| BallCollision.PushRestoresContact | src/Colisoes.cpp:119-122 | after the push the centres are exactly one radius sum apart along the normal |
| BallCollision.PushedPositions | src/Colisoes.cpp:120-122 | each centre moves by half the penetration along the normal, in opposite directions |
| BallCollision.ImpulseReversesApproach | src/Colisoes.cpp:124-129 | for an approaching pair the normal relative velocity becomes -e times what it was, so the pair separates |
| BallCollision.CollisionDissipates | src/Colisoes.cpp:124-129 | the pair's sum of squared speeds (twice its kinetic energy for unit masses) drops by exactly (1 - e^2)/2 proj^2 when approaching and is unchanged otherwise, and the normal relative speed never grows |
| BallCollision.ApproachLosesEnergy | src/Colisoes.cpp:127-129 | for an approaching pair the sum of squared speeds drops by exactly (1 - e^2)/2 proj^2 and the normal relative speed does not grow |
| BallCollision.CollisionAlongOffset | src/Colisoes.cpp:119-129 | Resolve's velocity facts restated along the offset d = dist n the simulation measures: an approaching pair's relative velocity along d is reversed and damped by e; a separating pair keeps its velocities; the sum of squared speeds never grows |
| BallCollision.OverlapByLength | src/Colisoes.cpp:114-117 | the source's length test dist < radius sum holds exactly when the pair overlaps (squared distance below the squared, positive radius sum) |
| BallCollision.Collide | src/Colisoes.cpp:114-130 | the pair test is degenerate exactly when the centres coincide with a positive radius sum; otherwise it leaves a non-overlapping pair untouched and changes an overlapping one (PairResolved). The overlapping centres end exactly one radius sum apart, and the sums of positions and velocities and the identities are kept. Along the measured offset d = a - b, an approaching pair's relative velocity is reversed and damped by e, and a separating pair keeps its velocities. The sum of squared speeds never grows |
| BallCollision.KeepInBounds | src/Colisoes.cpp:106-107 | the kept cells are in bounds, and a cell is kept if and only if it is in bounds and its offset is listed |
| BallCollision.NeighbourCells | src/Colisoes.cpp:103-107 | every visited cell is in bounds |
| BallCollision.NeighbourCellsExact | src/Colisoes.cpp:103-107 | the visited cells are exactly the in-bounds cells within one step of the ball's cell, each visited once |
| BallCollision.CandidatesBelow | src/Colisoes.cpp:108 | every candidate drawn from a well-formed grid is a valid ball index |
| BallCollision.CandidateCell | src/Colisoes.cpp:108-112 | every candidate is an active ball whose own cell is one of the visited cells |
| BallCollision.CandidatesComplete | src/Colisoes.cpp:106-108 | every active ball filed under one of the queried cells is among the candidates |
| BallCollision.NeighboursAreCandidates | src/Colisoes.cpp:98-108 | every ball active when the grid was built whose own cell is within one step of the queried cell is a candidate |
| BallCollision.CandidatesDistinct | src/Colisoes.cpp:103-108 | over distinct cells no index appears twice among the candidates |
| BallCollision.PairSelection | src/Colisoes.cpp:98-112 | the candidates of a cell are active balls of the sub-step's grid, listed once each, and include every active ball whose own cell is within one step |
| BallCollision.CollideAt | src/Colisoes.cpp:111-130 | only balls i and j change and keep their identities; the table is unchanged exactly when the pair does not overlap; degenerate exactly when the centres coincide; balls i and j satisfy all of Collide's resolution facts (PairResolved: contact distance, kept sums, approach along the offset reversed and damped by e, no energy gain) |
| BallCollision.PairHead | src/Colisoes.cpp:110-130 | a candidate that is not an active j > i is skipped, and the table is returned unchanged; a partner is collided: only i and j change, the table is unchanged exactly when the pair does not overlap, and an overlapping pair is resolved (PairResolved: contact distance, kept sums, damped reversal of the approach, no energy gain); degenerate exactly for a partner with coincident centres |
| BallCollision.PairPass | src/Colisoes.cpp:108-131 | the candidate loop changes only ball i and its partners, and keeps every identity |
| SegmentCollision.ClosestParam | src/Colisoes.cpp:135-137 | the clamped parameter lies in [0, 1] and is the exact projection inside, or an end whose side the projection is on |
| SegmentCollision.NearestOnSegment | src/Colisoes.cpp:137-138 | the clamped projection gives a squared distance no larger than any other point of the segment |
| SegmentCollision.ClosestPointIsNearest | src/Colisoes.cpp:135-140 | the computed closest point is at least as near to the centre as every point of the segment |
| SegmentCollision.ReflectReverses | src/Colisoes.cpp:148-154 | the reflected velocity has its normal component reversed and scaled by e, its tangential part scaled by e, and its speed scaled by e |
| SegmentCollision.PushOut | src/Colisoes.cpp:143-155 | the centre moves out by radius minus distance along the normal; the horizontal velocity is reflected only when moving into the wall; height, vertical speed, spin and identity are kept |
| SegmentCollision.PushMoves | src/Colisoes.cpp:144-146 | a contact with penetration really moves the ball |
| SegmentCollision.HitSegment | src/Colisoes.cpp:133-157 | one wall test keeps height and identity, changes the ball if and only if it touches the wall, and is degenerate exactly for a zero-length wall or a centre on the wall. For a touching ball, with n the offset from the closest point to the centre and w = v.n: a ball moving into the wall (w < 0) has w reversed and damped by e and its horizontal speed scaled by e; otherwise its velocity is kept |
| SegmentCollision.TouchesByLength | src/Colisoes.cpp:140-141 | the source's length test d < radius holds exactly when the ball touches the wall (squared distance to the segment below the squared, positive radius) |
| SegmentCollision.Contact | src/Colisoes.cpp:141-156 | the contact branch always moves the ball, keeps its height, identity and spin, reverses and damps by e the velocity component into the wall along the measured offset, and leaves a ball not moving into the wall with its velocity |
| SegmentCollision.BounceAlongOffset | src/Colisoes.cpp:143-155 | the push-out response along the measured offset n = d dir: a ball moving into the wall has its normal velocity reversed and damped by e and its squared horizontal speed scaled by e^2; any other ball keeps its velocity |
| SegmentCollision.ParamAfterPush | src/Colisoes.cpp:143-146 | pushing out along the contact normal leaves the closest point of the segment where it was |
| SegmentCollision.PushedClear | src/Colisoes.cpp:141-146 | after the push the centre is exactly one radius from the segment, so the ball no longer touches it |
| SegmentCollision.HitClears | src/Colisoes.cpp:133-157 | after a wall test the ball does not touch that wall, and testing it again changes nothing |
| SegmentCollision.SegmentPass | src/Colisoes.cpp:133-183 | the wall loop keeps height and identity, leaves the ball clear of the last wall, and is degenerate whenever some wall has zero length |
| SegmentCollision.ClearPassesThrough | src/Colisoes.cpp:159-183 | a ball touching none of the walls passes the loop unchanged |
| PocketCapture.Reaches | src/Colisoes.cpp:187-188 | the length test against the radius sum holds exactly when the squared distance is within the squared radius sum |
| PocketCapture.FirstPocket | src/Colisoes.cpp:185-208 | the loop stops at the first pocket that reaches the ball; no earlier pocket reaches it |
| PocketCapture.Pocketing | src/Colisoes.cpp:185-209 | an uncaptured ball is unchanged; a captured cue ball is re-spotted at rest and raises the flag; a captured object ball leaves play, parked at rest at the sentinel |
| Physics.Boundaries | src/Colisoes.cpp:133-209 | walls and pockets keep radius and texture, never take the cue ball out of play, park every ball they take out, and raise the flag only for the cue ball |
| Physics.QueryCells | src/Colisoes.cpp:98-107 | the cells ball i queries are in bounds |
| Physics.StepBall | src/Colisoes.cpp:57-210 | one ball's turn keeps radii and textures, never changes or re-activates an inactive ball, keeps the cue ball in play, keeps parking, leaves lower-indexed balls alone, and raises the flag only for the cue ball |
| Physics.FinishBall | src/Colisoes.cpp:133-210 | the walls-and-pockets half of a ball's turn has the same guarantees |
| Physics.StepFrom | src/Colisoes.cpp:57-210 | the ball loop from i onwards yields a successor state (same radii and textures, inactive balls untouched, cue ball in play), keeps parking and never lowers the flag |
| Physics.Substep | src/Colisoes.cpp:56-210 | a whole sub-step on the freshly built grid has the same guarantees |
| Scheduler.Run | src/Colisoes.cpp:54-213 | any number of sub-steps yields a successor state, keeps parking and never lowers the flag |
| Scheduler.DegenerateStays | src/Colisoes.cpp:54-213 | once a run hits a degenerate state every longer run does too |
| Scheduler.StepCount | src/Colisoes.cpp:51-54 | the number of sub-steps n an accumulator a holds satisfies n dt <= a < (n + 1) dt |
| Scheduler.SimularColisoes | src/Colisoes.cpp:42-213 | the call succeeds exactly when StepCount sub-steps succeed, runs exactly that many, leaves accumulator minus steps times dt (below one sub-step, non-negative for a non-negative total), and returns the state of Run |
| Scheduler.Drain | src/Colisoes.cpp:51-213 | the loop's state is always that of Run for the steps taken; on success less than one sub-step remains; on a degenerate sub-step the run of that length is degenerate |
| Scheduler.RunSubstep | src/Colisoes.cpp:56-210 | the loop body (grid rebuild, then every ball) computes one sub-step |
| Scheduler.StepsTaken | src/Colisoes.cpp:51-54 | a loop that stops with less than one sub-step left ran exactly StepCount steps |
| Rack.RackRowZOffset | src/main.cpp:227 | the row spacing squares to three quarters of the diameter squared (D sqrt 3 / 2) |
| Rack.SetupRack | src/main.cpp:521-574 | 16 balls, ball k drawn with texture k, all in play, at rest and at table height; the cue ball on its spot and every triangle ball at its row/column position |
| Rack.RackNeighboursTouch | src/main.cpp:560-562 | neighbouring balls of the triangle, in a row and across rows, are exactly one diameter apart |
| Rack.RackSlotOrder | src/main.cpp:543-571 | slots are numbered row by row, left to right, so no two triangle positions share a ball |
| Rack.RackSlotsCover | src/main.cpp:545-573 | the slots of the five rows are exactly the indices 1 to 15 |
| ShotPower.UpdateMeter | src/main.cpp:887-896 | the percentage moves by direction times 20 %/s times dt; reaching 100 or more pins it at 100 going down, reaching 0 or less pins it at 0 going up, and strictly between it keeps its direction |
| ShotPower.ChargeStaysValid | src/main.cpp:880-896 | however many frames P is held, with any frame times, the meter stays in [0, 100] with direction +1 or -1 |
| ShotPower.ShotMagnitude | src/main.cpp:2032 | a reading in [0, 100] gives a speed in [0.5, 12], from 0.5 at 0 % to 12 at 100 % |
| ShotPower.ShotMagnitudeMonotone | src/main.cpp:2032 | the speed is strictly increasing in the reading, and the reading can be recovered from it |
| Camera.NextMode | src/main.cpp:2085-2096 | a C press never yields the menu camera and yields the look-at camera exactly from the free camera |
| Camera.ModesAlternate | src/main.cpp:2085-2096 | after the first press the two remaining modes alternate |
| Camera.PressC | src/main.cpp:2081-2142 | entering the free camera saves the view, re-seeds the aiming angle and keeps phi within +-pi/2; entering the look-at camera restores the saved view |
| Camera.RestoreRoundTrip | src/main.cpp:2097-2142 | leaving the free camera restores exactly the view in place when it was entered |
| Camera.Scroll | src/main.cpp:1864-1876 | in look-at mode only the distance changes, moving by the wheel offset and clamped to [1, 5]; in other modes nothing changes |
| Camera.ScrollUndo | src/main.cpp:1864-1876 | within the limits a scroll is undone by the opposite scroll |
| Input.PositionCueBall | src/main.cpp:1904-1920 | each arrow moves the cue ball one step on its axis, other keys leave x and z, and the height is always reset to the table height |
| Input.Positioning | src/main.cpp:1902-1929 | while positioning only ball 0 changes and the mode ends exactly on Enter or Space; otherwise nothing changes |
| Input.PressT | src/main.cpp:1990-2006 | T toggles aiming (switching on only with balls present) and switching on re-seeds the aiming angle from theta plus pi |
| Input.PressP | src/main.cpp:2009-2022 | only the P flag and the meter change; P is held afterwards exactly when it was already held or a charge can start (aiming with the cue ball in play); a new charge starts from a valid, empty, rising meter with the cue ball active; otherwise the game is unchanged |
| Input.HoldFrames | src/main.cpp:880-896 | over a run of frames with P held the meter follows the ping-pong charge and nothing else changes; with P up nothing changes |
| Input.ChargedShotInRange | src/main.cpp:2009-2045 | pressing P while aiming with the cue ball in play, holding it for any frames and releasing it fires ball 0 along the unit direction at the speed of the meter those frames leave, between 0.5 and 12, ends aiming and moves no other ball |
| Input.ReleaseP | src/main.cpp:2024-2048 | releasing a held P gives the cue ball the meter's speed along the aim and ends aiming; no other ball and no other state changes |
| Input.KeyCallback | src/main.cpp:1902-2142 | no key changes the number of balls, and positioning continues exactly until Enter or Space |
| Input.FrameMeter | src/main.cpp:880-896 | the meter advances once per frame only while P is held and stays valid |
| Input.OnlyConfirmClearsFlag | src/main.cpp:1922-1927 | the keyboard ends positioning exactly on Enter or Space and never starts it |
| Input.PositioningPinsHeight | src/main.cpp:1919-1920 | while positioning every key event leaves the cue ball at table height |
| Input.ArrowTapMovesTwice | src/main.cpp:1902-1918 | a press and release of an arrow move the cue ball two steps, and no other ball moves |
| Input.ShotSpeedInRange | src/main.cpp:2032-2040 | a shot from a valid meter along a unit direction gives the cue ball a speed between 0.5 and 12 |
| Opening.RackReady | src/main.cpp:521-574 | the rack has positive radii, nothing parked, and ball 0 is its only cue ball |
| Opening.CueStaysInPlay | src/Colisoes.cpp:190-196 | in every state the physics reaches from the rack, ball 0 is in play and is still the only cue ball |

## Left out

- Rendering, shaders, textures, model loading, window and cursor handling, text output and debug prints are not modelled.
- The orientation quaternion of each ball is not kept. It is cosmetic: nothing in the physics reads it back.
- Float rounding is not modelled; every float is a real. This includes the drift of the float accumulator.
- Numeric.Trunc: does not model the integer range of `static_cast<int>`, because table coordinates stay far inside it.
- SegmentCollision.HitSegment: a zero-length wall segment is modelled as Degenerate, and the run stops. In the source the projection `dot(b, s) / dot(s, s)` at `src/Colisoes.cpp:137` is 0/0, a NaN. The scalar `glm::clamp` is `min(max(x, 0), 1)`, which keeps the NaN, so `cp`, `n` and `d` are NaN as well. The test `d < radius` at `src/Colisoes.cpp:141` is then false, and the source silently skips that wall.
- After a degenerate configuration (NaN in the source) the model stops. The source would keep running on NaN values.
- The source's square root, `sin`, `cos` and `atan2` are foreign calls. The square root is the parameter `sqrt`. The two `atan2` angles of the C key are the parameters `lookPhi` and `lookTheta`.
- Input.ReleaseP: the aim direction is a parameter. Building normalize(sin a, 0, cos a) from the aiming angle is not computed.
- Camera.PressC: does not state that the two angles point the camera at the origin, since they are parameters. The free-camera position, the WASD movement, the Bezier path and the mouse-driven phi and theta clamps are not modelled.
- The `glfwGetTime`-based progress ratio in the meter update is computed but never used by the source, so it is left out. The frame time is a parameter.
- The key callback's debug-ball block is commented out in the source and is not modelled. The O, H, R, Escape and Shift+digit keys do not touch game state and are not modelled.
- The duplicate `updateSpatialGrid` in the main program is never called; its only call is commented out. Its body is the same as that of src/Colisoes.cpp:29-39, so `SpatialGrid.UpdateSpatialGrid` models both.
- Physics.StepBall: requires every ball to have a positive radius. The integrator divides by the radius, and the rack only creates balls of radius 0.02625.
- Scheduler.Run: its contract states the invariants a run keeps, not the exact final positions. Those are given by the definition itself.
