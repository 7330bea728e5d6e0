# Boids and 3-D flocking, modelled in Dafny

The model covers two flocking scripts.

`boids.js` animates 200 boids on a 2-D canvas. Each frame it does three things to every boid in turn:

- `edges` wraps the boid around the canvas.
- `flock` adds three steering vectors to the boid's acceleration:
  - alignment, toward the mean velocity of the boids within 50;
  - cohesion, toward their mean position, also within 50;
  - separation, toward the mean of the pushes away from the boids within 24. Each push is a unit vector, or zero for a boid at the same point, which still counts in the mean.
- `update` moves the boid by its velocity, adds the acceleration to the velocity, caps the speed at `maxSpeed` (4), and clears the acceleration.

`flocking.js` moves 50 birds in a cube of side 10 with THREE.js. Each frame every bird does the following, in order:

- It adds three rule vectors to its velocity, each scaled by 0.01:
  - alignment, the unit vector along the mean velocity of all the other birds, or zero when that mean is zero;
  - cohesion, the unit vector toward their mean position, or zero when the bird is already there;
  - separation, a sum of pushes from the birds closer than 1, each of length 1/distance. This one is not bounded: it grows without limit as two birds come together.
- It clamps the velocity's length to 0.2.
- It moves by the new velocity.
- It wraps each axis into `[-5, 5]`.

Everything is over `real`, with no rounding. Vectors are immutable datatypes. Each method becomes a pure function from the old value to the new one.

Object identity (`other !== this`) becomes index inequality in the flock array. So a different agent at the very same point is still "other".

Square roots (`Math.hypot`, `Vector3.length`) are library code. They enter as a parameter `sqrt` with the precondition `Roots.IsSqrt(sqrt)`: non-negative, and its square is its argument. Every result holds for any such function.

A frame in both scripts is a `for … of` loop that updates each agent in place, in array order. The model follows that:

- `BoidTick.TickFrom` and `BirdTick.TickFrom` are folds over the array.
- A later agent sees the already-updated state of every agent before it. `Frames.Seen` is that view of the array: the agents before index `j` from the frame's result, the rest from its start. The contracts of `BoidTick.Tick` and `BirdTick.Tick` say that each agent's new value is its rules applied to that view.
- The result therefore depends on the array order. A design that reads one snapshot of the flock per frame would not.
- `BirdOrder.OrderMatters` shows it for two birds A and B at rest on the x axis. In the order `[A, B]`, B ends the frame still at rest. In the order `[B, A]`, B ends it moving 0.01 toward A. So the frame of the reversed array is not the reversed frame.
- `BirdTick.SnapshotTick` is a reference frame that the script does not run: every bird is updated against the array as the frame began. `BirdOrder.DiffersFromSnapshot` shows that the script's frame differs from it on the same pair.

In `boids.js`, `edges` runs before `update` moves the boid. So a frame can end with a boid just outside the canvas: the wrap-around keeps a boid on the canvas only right after `edges`. `BoidTick.TickCanLeaveCanvas` shows such a frame. The birds are wrapped after moving. So in the model, which uses the corrected separation described under Findings, every bird is in the cube at the end of a frame. In the script this fails when two birds coincide. Their coordinates become NaN, and a NaN passes neither test at flocking.js:44-49, so it stays NaN.

Modules:

| module | file |
|---|---|
| `Arith` | `arith.dfy`: named products and squares, with the monotonicity facts the proofs use |
| `Roots` | `roots.dfy`: the square-root parameter and its consequences |
| `Frames` | `frames.dfy`: the array as one agent sees it partway through an in-place frame |
| `Vector2` | `vector2.dfy`: the `{x, y}` arithmetic of `boids.js` |
| `Boids` | `boids.dfy`: the `Boid` class |
| `BoidTick` | `boid_tick.dfy`: the frame loop of `boids.js` |
| `Vector3` | `vector3.dfy`: the part of `THREE.Vector3` that `flocking.js` calls |
| `Birds` | `birds.dfy`: the `Bird` class |
| `BirdTick` | `bird_tick.dfy`: the frame loop of `flocking.js` |
| `BirdOrder` | `bird_order.dfy`: a two-bird frame that shows the in-place loop depends on array order |

## Model

| member | source | states |
|---|---|---|
| Boids.WrapAxis | boids.js:26-29 | For a non-negative limit the result is in `[0, limit]`. An in-range coordinate is kept. One past the limit becomes 0. One below 0 becomes the limit. |
| Boids.Edges | boids.js:25-30 | Velocity, acceleration and caps are unchanged. On a canvas of non-negative size the position ends on the canvas. A boid already on the canvas is returned unchanged. |
| Boids.EdgesIdempotent | boids.js:25-30 | Applying `edges` twice is the same as applying it once. |
| Boids.NeighboursBelow | boids.js:37-39 | The selected indices are in increasing order. An index is selected exactly when it is not the boid itself and its distance is strictly below the radius. |
| Boids.NeighbourIff | boids.js:38-39 | Stated without square roots, neighbourhood is: a different index, with squared distance strictly below the squared radius. A boid exactly on the radius is excluded. |
| Boids.CoincidentBoidIsNeighbour | boids.js:39 | A different boid at the same point is a neighbour for every positive radius. Identity is decided by index, not by position. |
| Boids.Steer | boids.js:49-53 | A zero target gives zero steering. Otherwise steering plus velocity is the target rescaled to `maxSpeed`: it points along the target, and its length is exactly `maxSpeed`. |
| Boids.Align | boids.js:32-57 | With no boid within 50 the result is zero. Otherwise it steers toward the mean velocity of exactly those boids. |
| Boids.Cohesion | boids.js:59-86 | With no boid within 50 the result is zero. Otherwise it steers toward the mean position of those boids, minus the boid's own position. |
| Boids.Away | boids.js:96-101 | A coincident boid contributes the zero vector, with no division. Any other boid contributes a unit vector along the difference of the two positions. |
| Boids.Separation | boids.js:88-119 | With no boid within 24 the result is zero. Otherwise it steers toward the mean of the pushes away from those boids. A coincident neighbour still counts in the mean. |
| Boids.Flock | boids.js:121-132 | The new acceleration minus the old one is exactly align + cohesion + separation. Position, velocity and caps are unchanged. |
| Boids.Update | boids.js:134-146 | The position moves by the velocity held before the update, and the acceleration becomes zero. The speed never exceeds `maxSpeed`. A velocity + acceleration within the cap is kept; a longer one is rescaled along itself to exactly `maxSpeed`. |
| BoidTick.Visit | boids.js:166-168 | `edges`, `flock` and `update` leave a boid wrapped and then moved by its old velocity, with zero acceleration and speed within its cap. |
| BoidTick.StepBoid | boids.js:165-168 | The loop body for boid `i` leaves every other boid untouched. It makes boid `i` `Visit` of the flock: wrapping it in place before steering means `flock` sees the wrapped boid. |
| BoidTick.TickFrom | boids.js:165-168 | The loop from index `i` keeps the boids before `i`. Every boid `j` from `i` on is `Visit` of the flock as the loop reaches it: boids before `j` already new, boids from `j` on as they were. The flock keeps its size, and the caps stay non-negative. |
| BoidTick.Tick | boids.js:162-170 | After one frame every boid is `Visit` of the flock as the loop reached it. So it has been wrapped, steered against the already-updated boids before it and the old boids after it, and moved by its pre-frame velocity. Its acceleration is zero and its speed is within its cap. |
| BoidTick.TickCanLeaveCanvas | boids.js:165-168 | A lone boid at the right border moving right ends the frame at x = 101 on a 100-wide canvas, which is off the canvas. |
| Vector2.DistZeroIff | boids.js:38 | The `Math.hypot` distance is zero exactly when the two points coincide. |
| Vector2.RescaleFacts | boids.js:51-52 | `v / mag * s` for a non-zero `v` is the multiple `s / mag` of `v` and has length exactly `s`. |
| Vector3.Normalize | flocking.js:62 | `normalize` keeps the zero vector. Any other vector becomes the unit vector along itself. |
| Vector3.ClampLength | flocking.js:40 | For `0 <= min <= max` the result is never longer than `max`. A vector within the bounds is kept. A longer one is rescaled along itself to length exactly `max`. |
| Vector3.DistanceZeroIff | flocking.js:86 | `distanceTo` is zero exactly when the two points coincide. |
| Birds.Others | flocking.js:55-56 | Alignment and cohesion look at exactly the birds with a different index, all `n - 1` of them, with no distance cutoff. |
| Birds.CloseBelow | flocking.js:84-87 | The selected indices are increasing. An index is selected exactly when it is another bird strictly closer than 1. |
| Birds.CloseIff | flocking.js:85-87 | Stated without square roots, closeness is: a different index, with squared distance strictly below 1. |
| Birds.NudgeOfNormalize | flocking.js:62-64 | `normalize` then `multiplyScalar(0.01)` keeps a zero target at zero. It turns any other target into a vector of length 0.01 along it. |
| Birds.Align | flocking.js:52-65 | A lone bird gets zero. Otherwise the result is 0.01 along the mean velocity of all the other birds, or zero if that mean is zero. |
| Birds.Cohere | flocking.js:67-80 | A lone bird gets zero. Otherwise the result is 0.01 from the bird toward the mean position of all the others, or zero if it is already there. |
| Birds.Push | flocking.js:88 | For a bird at a different point, `normalize().divideScalar(distance)` is the difference over the squared distance, a vector of length 1/distance. |
| Birds.Repel | flocking.js:88 | In the corrected push, a coincident bird contributes zero. Any other bird contributes the difference over the squared distance, a vector of length 1/distance. |
| Birds.SeparationSumBelow | flocking.js:83-91 | The guarded loop adds up exactly the pushes of the close birds, in index order. It is a sum, not an average. |
| Birds.Separate | flocking.js:82-93 | The result is 0.01 times the sum of the close birds' pushes, and zero when no bird is close. |
| Birds.RepelAsWritten | flocking.js:88 | The unguarded push is NaN for a coincident bird. For any other bird it is the corrected push. |
| Birds.SeparationSumAsWrittenBelow | flocking.js:84-91 | The loop of `separate` as written, over the first `n` birds, adding an unguarded push for each close bird. It has no contract of its own. `Birds.CoincidentMakesSumNaN` and `Birds.ApartSumAgrees` state its behaviour. |
| Birds.SeparateAsWritten | flocking.js:82-93 | `separate` as written: that loop over the whole array, then scaled by 0.01, with NaN staying NaN. It has no contract of its own. `Birds.CoincidentMakesSeparateNaN` and `Birds.ApartSeparateAgrees` state its behaviour. |
| Birds.CoincidentMakesSumNaN | flocking.js:84-91 | Once a coincident bird is met, the as-written sum is NaN, and later birds do not change that. |
| Birds.ApartSumAgrees | flocking.js:84-91 | With no coincident bird, the as-written loop computes the corrected sum. |
| Birds.CoincidentMakesSeparateNaN | flocking.js:82-93 | Any other bird at the same point makes the as-written `separate` NaN. |
| Birds.ApartSeparateAgrees | flocking.js:82-93 | With no coincident bird, the as-written `separate` equals `Birds.Separate`. |
| Birds.CoincidentBirdsGiveNaN | flocking.js:88 | For two birds at the origin, the as-written separation of the first is NaN, while the corrected one is the zero vector. |
| Birds.WrapAxis | flocking.js:44-49 | The result is always in `[-5, 5]`. An in-range coordinate is kept. Above 5 becomes -5, and below -5 becomes 5. |
| Birds.WrapCube | flocking.js:44-49 | The result is in the cube, and a point already in the cube is unchanged. |
| Birds.Update | flocking.js:35-50 | The new velocity is at most 0.2 long. The summed velocity is kept when within 0.2, and otherwise rescaled along itself to exactly 0.2. The position moves by the new velocity and is wrapped into the cube. |
| BirdTick.StepBird | flocking.js:108-110 | The loop body for bird `i` leaves every other bird untouched. Bird `i` becomes `update` of itself against the current array: it moves by its new, capped velocity and is wrapped into the cube. |
| BirdTick.TickFrom | flocking.js:108-110 | The loop from index `i` keeps the birds before `i`. Every bird `j` from `i` on is `update` of itself against the array as the loop reaches it: birds before `j` already new, birds from `j` on as they were. |
| BirdTick.Tick | flocking.js:105-110 | After one frame every bird is `update` of itself against the array as the loop reached it. In the model, with the corrected separation, every bird ends inside the cube and no faster than 0.2 whatever its start. The array keeps its size and order. |
| BirdOrder.PairApart | flocking.js:82-93 | Of two birds at least 1 apart, neither pushes the other: separation is zero. |
| BirdOrder.PairSteered | flocking.js:35-40 | Take two birds moving along the x axis, at least 1 apart. A bird's summed velocity is its own velocity, plus 0.01 toward the sign of the other bird's velocity, plus 0.01 toward the other bird. |
| BirdOrder.FirstBirdMoves | flocking.js:35-80 | Take two birds at rest, at least 1.01 apart. The first bird's new velocity is 0.01 toward the second, and it moves by that much. |
| BirdOrder.SecondBirdInPlace | flocking.js:52-80 | Once the first bird has moved, the second bird's alignment toward that new velocity cancels its cohesion. It stays at rest. |
| BirdOrder.SecondBirdFromSnapshot | flocking.js:52-80 | Updated against the flock as the frame began, the second bird would instead get velocity 0.01 toward the first. |
| BirdOrder.DiffersFromSnapshot | flocking.js:108-110 | For such a pair, the in-place frame leaves the second bird at rest, but a frame that reads one snapshot of the flock moves it. So the two frames differ. |
| BirdOrder.OrderMatters | flocking.js:108-110 | Put the same two birds in the other array order. The bird at `d` then moves first and gets velocity 0.01 toward the other, where in the original order it stayed at rest. So the frame of the reversed array is not the reversed frame: the in-place result depends on array order. |

## Left out

- Rendering is not modelled: the canvas context, `show`, the THREE scene, camera, renderer, meshes, materials, rotations and the ground plane. None of it feeds back into the motion.
- Random initial positions, velocities and colours are not modelled. Any starting state is allowed instead.
- `requestAnimationFrame` and the frame rate are not modelled. One frame is one call of `Tick`.
- The canvas size comes from the window. Here it is a parameter.
- IEEE-754 rounding is not modelled: all arithmetic is exact over `real`. NaN is modelled only where the script produces it by dividing by zero, in separation, through `Birds.Reading`.
- `maxForce` is stored and carried along unchanged. The scripts never read it, so no rule limits a steering vector by it.
- Square roots are a parameter satisfying `Roots.IsSqrt`. `Math.hypot` and `Vector3.length` are not re-implemented.
- Boids.Update: requires a non-negative `maxSpeed`. The constructor sets it to 4 and nothing changes it. A negative cap would make `update` divide a zero velocity by zero.
- Vector3.ClampLength: the length bounds are stated only for `0 <= min <= max`. The script calls it only with `(0, 0.2)`.
- BirdTick.Tick: the cube and speed bounds are proved for the model, which uses the corrected separation. The script breaks them when two birds coincide, because their coordinates become NaN.
- Birds.Separate: uses the corrected push, in which a coincident bird contributes nothing. The script's behaviour for that case is modelled separately by `Birds.SeparateAsWritten` and its lemmas (see Findings).
- Birds.Update: adds the corrected separation, so for a coincident pair it gives finite values where the script gives NaN.

## Findings

| source | as written | input that shows it | evidently intended | confidence | as-written member | corrected member |
|---|---|---|---|---|---|---|
| flocking.js:88 | `normalize().divideScalar(distance)` runs with no guard on `distance`. For a bird at the same point, `normalize` keeps the zero vector and `divideScalar(0)` multiplies 0 by Infinity, which gives NaN. That NaN then spreads through the velocity and position of the bird. | Two birds both at the origin. | A coincident bird contributes nothing, as the guard `if (mag > 0)` at boids.js:98 does in the 2-D script. | not executed; follows from the THREE.Vector3 definitions of `normalize` and of `divideScalar(s)` as `multiplyScalar(1 / s)`, as in current three.js. The script does not pin a three.js version. Older releases set the vector to zero on `divideScalar(0)`, which gives no NaN. | Birds.CoincidentBirdsGiveNaN | Birds.Separate |
