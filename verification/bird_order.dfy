/**
 The order of the birds matters in a frame of `flocking.js`. Because the
 frame loop calls `bird.update(flock)` on each bird in place, a bird later in
 the array steers by the new velocity of the birds before it.
 Two birds at rest on the x axis show it. In the array order `[A, B]`, B is
 still at rest after a frame: it aligns with A's new velocity, which cancels
 its cohesion. In the order `[B, A]`, B moves first and starts toward A. So
 reordering the array changes the frame's result, and the in-place frame
 also differs from a frame that read one snapshot of the flock.

 The arithmetic of the example is kept in lemmas of its own, away from the
 square-root parameter, and is stated over symbolic vectors.
 */
module BirdOrder {
  import opened Arith
  import opened Roots
  import opened Vector3
  import opened Birds
  import opened BirdTick
  import opened Frames

  /** The squared length of a vector on the x axis, as the square of a non-negative real. */
  lemma AxisLengthSq(a: real)
    ensures LengthSq(Vec3(a, 0.0, 0.0)) == Square(if a < 0.0 then -a else a)
  {
  }

  /** A vector on the x axis is as long as its coordinate's absolute value. */
  lemma AxisLength(sqrt: real -> real, a: real)
    requires IsSqrt(sqrt)
    ensures Length(sqrt, Vec3(a, 0.0, 0.0)) == if a < 0.0 then -a else a
  {
    AxisLengthSq(a);
    RootOfSquare(sqrt, if a < 0.0 then -a else a);
  }

  /** 0.01 toward the sign of `a`, or nothing for `a == 0`. */
  function NudgeX(a: real): real {
    if a < 0.0 then -ForceFactor else if a > 0.0 then ForceFactor else 0.0
  }

  /** A nudge of 0.01 along the x axis toward the sign of `a`. */
  function AxisNudgeOf(a: real): Vec3 {
    Vec3(NudgeX(a), 0.0, 0.0)
  }

  lemma AxisScale(a: real, l: real)
    requires a != 0.0 && l == (if a < 0.0 then -a else a)
    ensures MultiplyScalar(Vec3(a, 0.0, 0.0), ForceFactor / l) == AxisNudgeOf(a)
  {
  }

  /** A nudge toward a point on the x axis is 0.01 along that axis. */
  lemma AxisNudge(sqrt: real -> real, r: Vec3, a: real)
    requires IsSqrt(sqrt)
    requires Nudges(sqrt, r, Vec3(a, 0.0, 0.0))
    ensures r == AxisNudgeOf(a)
  {
    if a != 0.0 {
      AxisLength(sqrt, a);
      AxisScale(a, Length(sqrt, Vec3(a, 0.0, 0.0)));
    }
  }

  lemma MeanOfOne(vs: seq<Vec3>)
    requires |vs| == 1
    ensures Mean(vs) == vs[0]
  {
    assert vs[..0] == [];
    assert Sum(vs) == Add(Zero, vs[0]);
  }

  /** In a flock of two, the rules look only at the other bird. */
  lemma PairOthers(birds: seq<Bird>, self: nat, other: nat)
    requires |birds| == 2 && self < 2 && other == 1 - self
    ensures Others(birds, self) == [other]
    ensures Mean(VelocitiesOf(birds, [other])) == birds[other].velocity
    ensures Mean(PositionsOf(birds, [other])) == birds[other].position
  {
    var o := Others(birds, self);
    assert o[0] in o;
    MeanOfOne(VelocitiesOf(birds, [other]));
    MeanOfOne(PositionsOf(birds, [other]));
  }

  /** In a flock of two, alignment nudges toward the other bird's velocity. */
  lemma PairAlign(sqrt: real -> real, birds: seq<Bird>, self: nat, other: nat, a: real)
    requires IsSqrt(sqrt)
    requires |birds| == 2 && self < 2 && other == 1 - self
    requires birds[other].velocity == Vec3(a, 0.0, 0.0)
    ensures Align(sqrt, birds, self) == AxisNudgeOf(a)
  {
    PairOthers(birds, self, other);
    AxisNudge(sqrt, Align(sqrt, birds, self), a);
  }

  /** In a flock of two, cohesion nudges toward the other bird's position. */
  lemma PairCohere(sqrt: real -> real, birds: seq<Bird>, self: nat, other: nat, c: real)
    requires IsSqrt(sqrt)
    requires |birds| == 2 && self < 2 && other == 1 - self
    requires Sub(birds[other].position, birds[self].position) == Vec3(c, 0.0, 0.0)
    ensures Cohere(sqrt, birds, self) == AxisNudgeOf(c)
  {
    PairOthers(birds, self, other);
    AxisNudge(sqrt, Cohere(sqrt, birds, self), c);
  }

  /** Two birds at least 1 apart do not push each other. */
  lemma PairApart(sqrt: real -> real, birds: seq<Bird>, self: nat, other: nat)
    requires IsSqrt(sqrt)
    requires |birds| == 2 && self < 2 && other == 1 - self
    requires 1.0 <= LengthSq(Sub(birds[self].position, birds[other].position))
    ensures Separate(sqrt, birds, self) == Zero
  {
    var close := CloseBelow(sqrt, birds, self, 2);
    if |close| > 0 {
      CloseIff(sqrt, birds, self, close[0]);
      assert false;
    }
  }

  /**
   The velocity a bird of a two-bird flock adds up when both birds move along
   the x axis, at speeds `u` and `a`, and the other bird lies `c` further
   along it and at least 1 away.
   */
  lemma PairSteered(sqrt: real -> real, birds: seq<Bird>, self: nat, other: nat, u: real, a: real, c: real)
    requires IsSqrt(sqrt)
    requires |birds| == 2 && self < 2 && other == 1 - self
    requires birds[self].velocity == Vec3(u, 0.0, 0.0)
    requires birds[other].velocity == Vec3(a, 0.0, 0.0)
    requires Sub(birds[other].position, birds[self].position) == Vec3(c, 0.0, 0.0)
    requires 1.0 <= LengthSq(Sub(birds[self].position, birds[other].position))
    ensures Steered(sqrt, birds, self) == Vec3(u + NudgeX(a) + NudgeX(c), 0.0, 0.0)
  {
    PairAlign(sqrt, birds, self, other, a);
    PairCohere(sqrt, birds, self, other, c);
    PairApart(sqrt, birds, self, other);
    AxisAdd(birds[self].velocity, Align(sqrt, birds, self), Cohere(sqrt, birds, self),
            Separate(sqrt, birds, self), u, a, c);
  }

  /** A velocity along the x axis plus two nudges along it, plus nothing. */
  lemma AxisAdd(v: Vec3, p: Vec3, q: Vec3, z: Vec3, u: real, a: real, c: real)
    requires v == Vec3(u, 0.0, 0.0) && p == AxisNudgeOf(a) && q == AxisNudgeOf(c) && z == Zero
    ensures Add(Add(Add(v, p), q), z) == Vec3(u + NudgeX(a) + NudgeX(c), 0.0, 0.0)
  {
  }

  /** A summed velocity within the speed limit is kept by `update`. */
  lemma UpdateWithin(sqrt: real -> real, birds: seq<Bird>, self: nat, w: Vec3)
    requires IsSqrt(sqrt)
    requires self < |birds|
    requires Steered(sqrt, birds, self) == w && Length(sqrt, w) <= SpeedLimit
    ensures Update(sqrt, birds, self) == Bird(WrapCube(Add(birds[self].position, w)), w)
  {
  }

  /** Two birds `d` apart on the x axis, both at rest. */
  function Pair(d: real): seq<Bird> {
    [Bird(Zero, Zero), Bird(Vec3(d, 0.0, 0.0), Zero)]
  }

  /** The same two birds after the first has moved 0.01 toward the second. */
  function MovedPair(d: real): seq<Bird> {
    [Bird(Vec3(ForceFactor, 0.0, 0.0), Vec3(ForceFactor, 0.0, 0.0)), Bird(Vec3(d, 0.0, 0.0), Zero)]
  }

  /** The same two birds in the other array order. */
  function RevPair(d: real): seq<Bird> {
    [Bird(Vec3(d, 0.0, 0.0), Zero), Bird(Zero, Zero)]
  }

  /** Where the two birds of `RevPair(d)` are, and how far apart. */
  lemma RevGeometry(d: real)
    requires 1.0 + ForceFactor <= d
    ensures RevPair(d) == [Pair(d)[1], Pair(d)[0]]
    ensures RevPair(d)[0].velocity == Vec3(0.0, 0.0, 0.0) && RevPair(d)[1].velocity == Vec3(0.0, 0.0, 0.0)
    ensures Sub(RevPair(d)[1].position, RevPair(d)[0].position) == Vec3(-d, 0.0, 0.0)
    ensures Sub(RevPair(d)[0].position, RevPair(d)[1].position) == Vec3(d, 0.0, 0.0)
  {
  }

  /** Where the two birds of `Pair(d)` are, and how far apart. */
  lemma PairGeometry(d: real)
    requires 1.0 + ForceFactor <= d
    ensures Pair(d)[0].velocity == Vec3(0.0, 0.0, 0.0) && Pair(d)[1].velocity == Vec3(0.0, 0.0, 0.0)
    ensures Sub(Pair(d)[1].position, Pair(d)[0].position) == Vec3(d, 0.0, 0.0)
    ensures Sub(Pair(d)[0].position, Pair(d)[1].position) == Vec3(-d, 0.0, 0.0)
    ensures MovedPair(d)[0].velocity == Vec3(ForceFactor, 0.0, 0.0)
    ensures MovedPair(d)[1].velocity == Vec3(0.0, 0.0, 0.0)
    ensures Sub(MovedPair(d)[0].position, MovedPair(d)[1].position) == Vec3(ForceFactor - d, 0.0, 0.0)
    ensures Sub(MovedPair(d)[1].position, MovedPair(d)[0].position) == Vec3(d - ForceFactor, 0.0, 0.0)
  {
  }

  /** Both before and after the first bird moves, the two are at least 1 apart. */
  lemma PairApartSq(d: real)
    requires 1.0 + ForceFactor <= d
    ensures 1.0 <= LengthSq(Vec3(d, 0.0, 0.0)) && 1.0 <= LengthSq(Vec3(-d, 0.0, 0.0))
    ensures 1.0 <= LengthSq(Vec3(d - ForceFactor, 0.0, 0.0))
  {
    AxisLengthSq(d);
    AxisLengthSq(-d);
    AxisLengthSq(d - ForceFactor);
    SquareLessIff(1.0, d);
    SquareLessIff(1.0, d - ForceFactor);
  }

  /** The first bird's move, written back into the array, gives `MovedPair(d)`. */
  lemma PairMove(d: real)
    ensures Bird(WrapCube(Add(Pair(d)[0].position, Vec3(ForceFactor, 0.0, 0.0))), Vec3(ForceFactor, 0.0, 0.0))
         == MovedPair(d)[0]
    ensures Pair(d)[0 := MovedPair(d)[0]] == MovedPair(d)
  {
    assert InCube(MovedPair(d)[0].position);
  }

  /** The velocity the first bird of `Pair(d)` adds up. */
  lemma FirstBirdSteered(sqrt: real -> real, d: real)
    requires IsSqrt(sqrt)
    requires 1.0 + ForceFactor <= d
    ensures Steered(sqrt, Pair(d), 0) == Vec3(ForceFactor, 0.0, 0.0)
  {
    PairGeometry(d);
    PairApartSq(d);
    PairSteered(sqrt, Pair(d), 0, 1, 0.0, 0.0, d);
  }

  /**
   Of two birds at rest and at least 1.01 apart, the first moves 0.01 toward
   the second: cohesion is the only rule that acts.
   */
  lemma FirstBirdMoves(sqrt: real -> real, d: real)
    requires IsSqrt(sqrt)
    requires 1.0 + ForceFactor <= d
    ensures Update(sqrt, Pair(d), 0) == MovedPair(d)[0]
  {
    PairMove(d);
    FirstBirdSteered(sqrt, d);
    AxisLength(sqrt, ForceFactor);
    UpdateWithin(sqrt, Pair(d), 0, Vec3(ForceFactor, 0.0, 0.0));
  }

  /**
   The second bird, updated after the first has moved: alignment toward the
   first bird's new velocity cancels cohesion, and it stays at rest.
   */
  lemma SecondBirdInPlace(sqrt: real -> real, d: real)
    requires IsSqrt(sqrt)
    requires 1.0 + ForceFactor <= d
    ensures Update(sqrt, MovedPair(d), 1).velocity == Zero
  {
    PairGeometry(d);
    PairApartSq(d);
    PairSteered(sqrt, MovedPair(d), 1, 0, 0.0, ForceFactor, ForceFactor - d);
    AxisLength(sqrt, 0.0);
    UpdateWithin(sqrt, MovedPair(d), 1, Zero);
  }

  /**
   The second bird, updated against the flock as the frame began: there is
   nothing to align with, and it moves 0.01 toward the first bird.
   */
  lemma SecondBirdFromSnapshot(sqrt: real -> real, d: real)
    requires IsSqrt(sqrt)
    requires 1.0 + ForceFactor <= d
    ensures Update(sqrt, Pair(d), 1).velocity == Vec3(-ForceFactor, 0.0, 0.0)
  {
    PairGeometry(d);
    PairApartSq(d);
    PairSteered(sqrt, Pair(d), 1, 0, 0.0, 0.0, -d);
    AxisLength(sqrt, -ForceFactor);
    UpdateWithin(sqrt, Pair(d), 1, Vec3(-ForceFactor, 0.0, 0.0));
  }

  /** A frame of a two-bird flock: the first bird's callback, then the second's. */
  lemma TickOfTwo(sqrt: real -> real, birds: seq<Bird>)
    requires IsSqrt(sqrt)
    requires |birds| == 2
    ensures Tick(sqrt, birds) == StepBird(sqrt, StepBird(sqrt, birds, 0), 1)
  {
    var mid := StepBird(sqrt, birds, 0);
    var last := StepBird(sqrt, mid, 1);
    assert TickFrom(sqrt, birds, 0) == TickFrom(sqrt, mid, 1);
    assert TickFrom(sqrt, mid, 1) == TickFrom(sqrt, last, 2);
    assert TickFrom(sqrt, last, 2) == last;
  }

  /**
   The in-place frame differs from a snapshot frame: of two birds at rest and
   at least 1.01 apart, the second stays at rest after a frame, while a frame
   that read one snapshot of the flock would move it 0.01 toward the first.
   */
  lemma DiffersFromSnapshot(sqrt: real -> real, d: real)
    requires IsSqrt(sqrt)
    requires 1.0 + ForceFactor <= d
    ensures Tick(sqrt, Pair(d))[1].velocity == Zero
    ensures SnapshotTick(sqrt, Pair(d))[1].velocity == Vec3(-ForceFactor, 0.0, 0.0)
    ensures Tick(sqrt, Pair(d)) != SnapshotTick(sqrt, Pair(d))
  {
    PairMove(d);
    TickOfTwo(sqrt, Pair(d));
    FirstBirdMoves(sqrt, d);
    SecondBirdInPlace(sqrt, d);
    SecondBirdFromSnapshot(sqrt, d);
  }

  /**
   The in-place frame depends on the array order. The bird at `d` ends the
   frame at rest when it comes second in the array, but with velocity 0.01
   toward the other bird when it comes first. So the frame of the reversed
   array is not the reversed frame.
   */
  lemma OrderMatters(sqrt: real -> real, d: real)
    requires IsSqrt(sqrt)
    requires 1.0 + ForceFactor <= d
    ensures RevPair(d) == [Pair(d)[1], Pair(d)[0]]
    ensures Tick(sqrt, Pair(d))[1].velocity == Zero
    ensures Tick(sqrt, RevPair(d))[0].velocity == Vec3(-ForceFactor, 0.0, 0.0)
    ensures Tick(sqrt, RevPair(d)) != [Tick(sqrt, Pair(d))[1], Tick(sqrt, Pair(d))[0]]
  {
    DiffersFromSnapshot(sqrt, d);
    var r := Tick(sqrt, RevPair(d));
    SeenUnchanged(r, RevPair(d), 0);
    RevGeometry(d);
    PairApartSq(d);
    PairSteered(sqrt, RevPair(d), 0, 1, 0.0, 0.0, -d);
    AxisLength(sqrt, -ForceFactor);
    UpdateWithin(sqrt, RevPair(d), 0, Vec3(-ForceFactor, 0.0, 0.0));
  }
}
