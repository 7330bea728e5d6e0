/**
 The 2-D boids of `boids.js`. A boid is an immutable value; each method of the
 script's `Boid` class becomes a pure function from the boid (and, for the
 steering rules, the flock it sits in) to its new value. Identity (`other !==
 this`) is the boid's index in the flock.
 */
module Boids {
  import opened Arith
  import opened Roots
  import opened Vector2

  datatype Boid = Boid(
    position: Vec2,
    velocity: Vec2,
    acceleration: Vec2,
    maxSpeed: real,
    maxForce: real)

  const AlignRadius: real := 50.0
  const CohesionRadius: real := 50.0
  const SeparationRadius: real := 24.0

  // ---------------------------------------------------------------------------
  // Wrap-around boundary
  // ---------------------------------------------------------------------------

  /**
   One axis of `edges()`: a coordinate past `limit` jumps to 0, then a
   coordinate below 0 jumps to `limit`.
   */
  function WrapAxis(c: real, limit: real): (r: real)
    ensures 0.0 <= limit ==> 0.0 <= r <= limit
    ensures 0.0 <= c <= limit ==> r == c
    ensures c > limit ==> r == 0.0
    ensures c < 0.0 && c <= limit ==> r == limit
  {
    var c1 := if c > limit then 0.0 else c;
    if c1 < 0.0 then limit else c1
  }

  predicate OnCanvas(p: Vec2, width: real, height: real) {
    0.0 <= p.x <= width && 0.0 <= p.y <= height
  }

  /** `edges()`, with the canvas size passed in. */
  function Edges(b: Boid, width: real, height: real): (r: Boid)
    ensures r.velocity == b.velocity && r.acceleration == b.acceleration
    ensures r.maxSpeed == b.maxSpeed && r.maxForce == b.maxForce
    ensures 0.0 <= width && 0.0 <= height ==> OnCanvas(r.position, width, height)
    ensures OnCanvas(b.position, width, height) ==> r == b
  {
    b.(position := Vec2(WrapAxis(b.position.x, width), WrapAxis(b.position.y, height)))
  }

  /** Wrapping a boid that is already wrapped changes nothing. */
  lemma EdgesIdempotent(b: Boid, width: real, height: real)
    requires 0.0 <= width && 0.0 <= height
    ensures Edges(Edges(b, width, height), width, height) == Edges(b, width, height)
  {
  }

  // ---------------------------------------------------------------------------
  // Neighbours
  // ---------------------------------------------------------------------------

  /** The test every rule applies to `other`: not the boid itself, and strictly inside the radius. */
  predicate IsNeighbour(sqrt: real -> real, flock: seq<Boid>, self: nat, j: nat, radius: real)
    requires IsSqrt(sqrt)
    requires self < |flock| && j < |flock|
  {
    j != self && Dist(sqrt, flock[self].position, flock[j].position) < radius
  }

  /** The indices below `n` of the boids that pass the neighbour test, in flock order. */
  function NeighboursBelow(sqrt: real -> real, flock: seq<Boid>, self: nat, radius: real, n: nat): (r: seq<nat>)
    requires IsSqrt(sqrt)
    requires self < |flock| && n <= |flock|
    ensures forall k :: 0 <= k < |r| ==> r[k] < n
    ensures forall k, l :: 0 <= k < l < |r| ==> r[k] < r[l]
    ensures forall j :: 0 <= j < n ==> (j in r <==> IsNeighbour(sqrt, flock, self, j, radius))
    decreases n
  {
    if n == 0 then
      []
    else
      var rest := NeighboursBelow(sqrt, flock, self, radius, n - 1);
      if IsNeighbour(sqrt, flock, self, n - 1, radius) then rest + [n - 1] else rest
  }

  /** The boids one rule looks at: the `for (let other of boids)` loop with its `if`. */
  function Neighbours(sqrt: real -> real, flock: seq<Boid>, self: nat, radius: real): (r: seq<nat>)
    requires IsSqrt(sqrt)
    requires self < |flock|
    ensures forall k :: 0 <= k < |r| ==> r[k] < |flock|
  {
    NeighboursBelow(sqrt, flock, self, radius, |flock|)
  }

  /**
   Neighbourhood, stated without the square root: another boid is a neighbour
   exactly when its squared distance is below the squared radius. A boid is
   never its own neighbour, and a boid exactly on the radius is not one.
   */
  lemma NeighbourIff(sqrt: real -> real, flock: seq<Boid>, self: nat, j: nat, radius: real)
    requires IsSqrt(sqrt)
    requires self < |flock| && j < |flock| && 0.0 <= radius
    ensures j in Neighbours(sqrt, flock, self, radius)
        <==> j != self && SqNorm(Sub(flock[self].position, flock[j].position)) < Square(radius)
  {
    var d := Sub(flock[self].position, flock[j].position);
    SquareNonneg(d.x);
    SquareNonneg(d.y);
    RootLessIff(sqrt, SqNorm(d), radius);
  }

  /**
   Identity, not position, decides who is "other": a different boid at the
   very same point is a neighbour for any positive radius.
   */
  lemma CoincidentBoidIsNeighbour(sqrt: real -> real, flock: seq<Boid>, self: nat, j: nat, radius: real)
    requires IsSqrt(sqrt)
    requires self < |flock| && j < |flock| && j != self
    requires flock[j].position == flock[self].position && 0.0 < radius
    ensures j in Neighbours(sqrt, flock, self, radius)
  {
    DistZeroIff(sqrt, flock[self].position, flock[j].position);
  }

  // ---------------------------------------------------------------------------
  // Averages
  // ---------------------------------------------------------------------------

  /** The running `steering.x += …; steering.y += …` of a rule's loop. */
  function Sum(vs: seq<Vec2>): Vec2 {
    if |vs| == 0 then Zero else Add(Sum(vs[..|vs| - 1]), vs[|vs| - 1])
  }

  /** `steering /= total` once the loop is done. */
  function Mean(vs: seq<Vec2>): Vec2
    requires |vs| > 0
  {
    Div(Sum(vs), |vs| as real)
  }

  predicate ValidIndices(flock: seq<Boid>, ids: seq<nat>) {
    forall k :: 0 <= k < |ids| ==> ids[k] < |flock|
  }

  function VelocitiesOf(flock: seq<Boid>, ids: seq<nat>): (r: seq<Vec2>)
    requires ValidIndices(flock, ids)
    ensures |r| == |ids| && forall k :: 0 <= k < |ids| ==> r[k] == flock[ids[k]].velocity
  {
    seq(|ids|, k requires 0 <= k < |ids| => flock[ids[k]].velocity)
  }

  function PositionsOf(flock: seq<Boid>, ids: seq<nat>): (r: seq<Vec2>)
    requires ValidIndices(flock, ids)
    ensures |r| == |ids| && forall k :: 0 <= k < |ids| ==> r[k] == flock[ids[k]].position
  {
    seq(|ids|, k requires 0 <= k < |ids| => flock[ids[k]].position)
  }

  // ---------------------------------------------------------------------------
  // Steering
  // ---------------------------------------------------------------------------

  /**
   What the "desired velocity" step promises: no steering for a zero target;
   otherwise steering plus the boid's velocity is the target rescaled to the
   boid's top speed.
   */
  ghost predicate SteersToward(sqrt: real -> real, steering: Vec2, target: Vec2, b: Boid)
    requires IsSqrt(sqrt)
  {
    && (target == Zero ==> steering == Zero)
    && (target != Zero ==>
          && Len(sqrt, target) != 0.0
          && Add(steering, b.velocity) == Scale(target, b.maxSpeed / Len(sqrt, target))
          && (0.0 <= b.maxSpeed ==> Len(sqrt, Add(steering, b.velocity)) == b.maxSpeed))
  }

  /** `if (mag > 0) steering = steering / mag * maxSpeed - velocity`, shared by the three rules. */
  function Steer(sqrt: real -> real, target: Vec2, b: Boid): (r: Vec2)
    requires IsSqrt(sqrt)
    ensures SteersToward(sqrt, r, target, b)
  {
    var mag := Len(sqrt, target);
    LenZeroIff(sqrt, target);
    if mag > 0.0 then
      var desired := Scale(Div(target, mag), b.maxSpeed);
      AddSubCancel(desired, b.velocity);
      DivThenScale(target, mag, b.maxSpeed);
      if 0.0 <= b.maxSpeed then
        RescaleFacts(sqrt, target, b.maxSpeed);
        Sub(desired, b.velocity)
      else
        Sub(desired, b.velocity)
    else
      target
  }

  /** `align`: steer toward the mean velocity of the boids within 50. */
  function Align(sqrt: real -> real, flock: seq<Boid>, self: nat): (r: Vec2)
    requires IsSqrt(sqrt)
    requires self < |flock|
    ensures var ns := Neighbours(sqrt, flock, self, AlignRadius);
      && (|ns| == 0 ==> r == Zero)
      && (|ns| > 0 ==> SteersToward(sqrt, r, Mean(VelocitiesOf(flock, ns)), flock[self]))
  {
    var ns := Neighbours(sqrt, flock, self, AlignRadius);
    if |ns| > 0 then Steer(sqrt, Mean(VelocitiesOf(flock, ns)), flock[self]) else Zero
  }

  /** `cohesion`: steer toward the mean position of the boids within 50. */
  function Cohesion(sqrt: real -> real, flock: seq<Boid>, self: nat): (r: Vec2)
    requires IsSqrt(sqrt)
    requires self < |flock|
    ensures var ns := Neighbours(sqrt, flock, self, CohesionRadius);
      && (|ns| == 0 ==> r == Zero)
      && (|ns| > 0 ==>
            SteersToward(sqrt, r, Sub(Mean(PositionsOf(flock, ns)), flock[self].position), flock[self]))
  {
    var ns := Neighbours(sqrt, flock, self, CohesionRadius);
    if |ns| > 0 then
      Steer(sqrt, Sub(Mean(PositionsOf(flock, ns)), flock[self].position), flock[self])
    else
      Zero
  }

  /**
   One neighbour's push in `separation`: the unit vector from `q` to `p`, or
   the zero vector (and no division) when the two points coincide.
   */
  function Away(sqrt: real -> real, p: Vec2, q: Vec2): (r: Vec2)
    requires IsSqrt(sqrt)
    ensures p == q ==> r == Zero
    ensures p != q ==>
      && 0.0 < Dist(sqrt, p, q)
      && Len(sqrt, r) == 1.0
      && r == Scale(Sub(p, q), 1.0 / Dist(sqrt, p, q))
  {
    var diff := Sub(p, q);
    var mag := Len(sqrt, diff);
    DistZeroIff(sqrt, p, q);
    if mag > 0.0 then
      RescaleFacts(sqrt, diff, 1.0);
      Div(diff, mag)
    else
      diff
  }

  function AwaysOf(sqrt: real -> real, flock: seq<Boid>, self: nat, ids: seq<nat>): (r: seq<Vec2>)
    requires IsSqrt(sqrt)
    requires self < |flock| && ValidIndices(flock, ids)
    ensures |r| == |ids|
    ensures forall k :: 0 <= k < |ids| ==> r[k] == Away(sqrt, flock[self].position, flock[ids[k]].position)
  {
    seq(|ids|, k requires 0 <= k < |ids| => Away(sqrt, flock[self].position, flock[ids[k]].position))
  }

  /** `separation`: steer along the mean of the unit pushes away from the boids within 24. */
  function Separation(sqrt: real -> real, flock: seq<Boid>, self: nat): (r: Vec2)
    requires IsSqrt(sqrt)
    requires self < |flock|
    ensures var ns := Neighbours(sqrt, flock, self, SeparationRadius);
      && (|ns| == 0 ==> r == Zero)
      && (|ns| > 0 ==> SteersToward(sqrt, r, Mean(AwaysOf(sqrt, flock, self, ns)), flock[self]))
  {
    var ns := Neighbours(sqrt, flock, self, SeparationRadius);
    if |ns| > 0 then Steer(sqrt, Mean(AwaysOf(sqrt, flock, self, ns)), flock[self]) else Zero
  }

  // ---------------------------------------------------------------------------
  // Force summation and integration
  // ---------------------------------------------------------------------------

  /** `flock()`: add the three steering vectors to the boid's acceleration and nothing else. */
  function Flock(sqrt: real -> real, flock: seq<Boid>, self: nat): (r: Boid)
    requires IsSqrt(sqrt)
    requires self < |flock|
    ensures r.position == flock[self].position && r.velocity == flock[self].velocity
    ensures r.maxSpeed == flock[self].maxSpeed && r.maxForce == flock[self].maxForce
    ensures Sub(r.acceleration, flock[self].acceleration)
         == Add(Add(Align(sqrt, flock, self), Cohesion(sqrt, flock, self)), Separation(sqrt, flock, self))
  {
    var b := flock[self];
    var acc := Add(Add(Add(b.acceleration, Align(sqrt, flock, self)),
                       Cohesion(sqrt, flock, self)),
                   Separation(sqrt, flock, self));
    b.(acceleration := acc)
  }

  /**
   `update()`: move by the velocity held before the update, add the
   acceleration to the velocity, cap the speed at `maxSpeed`, clear the
   acceleration.
   */
  function Update(sqrt: real -> real, b: Boid): (r: Boid)
    requires IsSqrt(sqrt)
    requires 0.0 <= b.maxSpeed
    ensures r.position == Add(b.position, b.velocity)
    ensures r.acceleration == Zero
    ensures r.maxSpeed == b.maxSpeed && r.maxForce == b.maxForce
    ensures Len(sqrt, r.velocity) <= b.maxSpeed
    ensures var v := Add(b.velocity, b.acceleration);
      && (Len(sqrt, v) <= b.maxSpeed ==> r.velocity == v)
      && (Len(sqrt, v) > b.maxSpeed ==> r.velocity == Scale(v, b.maxSpeed / Len(sqrt, v)))
  {
    var moved := Add(b.position, b.velocity);
    var v := Add(b.velocity, b.acceleration);
    var mag := Len(sqrt, v);
    var capped :=
      if mag > b.maxSpeed then
        LenZeroIff(sqrt, v);
        RescaleFacts(sqrt, v, b.maxSpeed);
        Scale(Div(v, mag), b.maxSpeed)
      else
        v;
    b.(position := moved, velocity := capped, acceleration := Scale(b.acceleration, 0.0))
  }
}
