/**
 The 3-D birds of `flocking.js`. A bird is its mesh position and its velocity
 (the mesh's geometry, material and rotation are rendering only). As in the
 2-D model, identity (`bird !== this`) is the bird's index in the flock.
 */
module Birds {
  import opened Arith
  import opened Roots
  import opened Vector3

  datatype Bird = Bird(position: Vec3, velocity: Vec3)

  /** The factor every rule's result is multiplied by. */
  const ForceFactor: real := 0.01
  /** The `max` of `clampLength(0, 0.2)`. */
  const SpeedLimit: real := 0.2
  /** Separation looks at birds strictly closer than this. */
  const SeparationDistance: real := 1.0
  /** The cube the birds live in is `[-Bound, Bound]` on every axis. */
  const Bound: real := 5.0

  // ---------------------------------------------------------------------------
  // Which birds a rule looks at
  // ---------------------------------------------------------------------------

  /** The indices below `n` other than `self`, in flock order. */
  function OthersBelow(self: nat, n: nat): (r: seq<nat>)
    ensures forall k :: 0 <= k < |r| ==> r[k] < n && r[k] != self
    ensures forall j :: 0 <= j < n && j != self ==> j in r
    ensures forall k, l :: 0 <= k < l < |r| ==> r[k] < r[l]
    ensures |r| == if self < n then n - 1 else n
  {
    if n == 0 then
      []
    else
      var rest := OthersBelow(self, n - 1);
      if n - 1 != self then rest + [n - 1] else rest
  }

  /** `align` and `cohere` use every other bird, with no distance cutoff. */
  function Others(birds: seq<Bird>, self: nat): (r: seq<nat>)
    requires self < |birds|
    ensures |r| == |birds| - 1
    ensures forall k :: 0 <= k < |r| ==> r[k] < |birds|
    ensures forall j :: 0 <= j < |birds| ==> (j in r <==> j != self)
  {
    OthersBelow(self, |birds|)
  }

  predicate IsClose(sqrt: real -> real, birds: seq<Bird>, self: nat, j: nat)
    requires IsSqrt(sqrt)
    requires self < |birds| && j < |birds|
  {
    j != self && DistanceTo(sqrt, birds[self].position, birds[j].position) < SeparationDistance
  }

  /** The indices below `n` of the other birds strictly closer than 1, in flock order. */
  function CloseBelow(sqrt: real -> real, birds: seq<Bird>, self: nat, n: nat): (r: seq<nat>)
    requires IsSqrt(sqrt)
    requires self < |birds| && n <= |birds|
    ensures forall k :: 0 <= k < |r| ==> r[k] < n
    ensures forall k, l :: 0 <= k < l < |r| ==> r[k] < r[l]
    ensures forall j :: 0 <= j < n ==> (j in r <==> IsClose(sqrt, birds, self, j))
  {
    if n == 0 then
      []
    else
      var rest := CloseBelow(sqrt, birds, self, n - 1);
      if IsClose(sqrt, birds, self, n - 1) then rest + [n - 1] else rest
  }

  /**
   Closeness, stated without the square root: another bird is close exactly
   when its squared distance is below 1. A bird is never close to itself, and
   a bird at distance exactly 1 is not close.
   */
  lemma CloseIff(sqrt: real -> real, birds: seq<Bird>, self: nat, j: nat)
    requires IsSqrt(sqrt)
    requires self < |birds| && j < |birds|
    ensures j in CloseBelow(sqrt, birds, self, |birds|)
        <==> j != self && LengthSq(Sub(birds[self].position, birds[j].position)) < 1.0
  {
    var d := Sub(birds[self].position, birds[j].position);
    SquareNonneg(d.x);
    SquareNonneg(d.y);
    SquareNonneg(d.z);
    RootLessIff(sqrt, LengthSq(d), SeparationDistance);
    assert Square(SeparationDistance) == 1.0;
  }

  // ---------------------------------------------------------------------------
  // Sums and averages
  // ---------------------------------------------------------------------------

  /** Repeated `add`, from a fresh `new THREE.Vector3()`. */
  function Sum(vs: seq<Vec3>): Vec3 {
    if |vs| == 0 then Zero else Add(Sum(vs[..|vs| - 1]), vs[|vs| - 1])
  }

  /** `divideScalar(count)` after the loop. */
  function Mean(vs: seq<Vec3>): Vec3
    requires |vs| > 0
  {
    DivideScalar(Sum(vs), |vs| as real)
  }

  predicate ValidIndices(birds: seq<Bird>, ids: seq<nat>) {
    forall k :: 0 <= k < |ids| ==> ids[k] < |birds|
  }

  function VelocitiesOf(birds: seq<Bird>, ids: seq<nat>): (r: seq<Vec3>)
    requires ValidIndices(birds, ids)
    ensures |r| == |ids| && forall k :: 0 <= k < |ids| ==> r[k] == birds[ids[k]].velocity
  {
    seq(|ids|, k requires 0 <= k < |ids| => birds[ids[k]].velocity)
  }

  function PositionsOf(birds: seq<Bird>, ids: seq<nat>): (r: seq<Vec3>)
    requires ValidIndices(birds, ids)
    ensures |r| == |ids| && forall k :: 0 <= k < |ids| ==> r[k] == birds[ids[k]].position
  {
    seq(|ids|, k requires 0 <= k < |ids| => birds[ids[k]].position)
  }

  // ---------------------------------------------------------------------------
  // Alignment and cohesion
  // ---------------------------------------------------------------------------

  /**
   What `normalize()` followed by `multiplyScalar(0.01)` promises: nothing for
   a zero target, otherwise a vector of length 0.01 pointing along the target.
   */
  ghost predicate Nudges(sqrt: real -> real, r: Vec3, target: Vec3)
    requires IsSqrt(sqrt)
  {
    && (target == Zero ==> r == Zero)
    && (target != Zero ==>
          && Length(sqrt, target) != 0.0
          && r == MultiplyScalar(target, ForceFactor / Length(sqrt, target))
          && Length(sqrt, r) == ForceFactor)
  }

  lemma NudgeOfNormalize(sqrt: real -> real, target: Vec3)
    requires IsSqrt(sqrt)
    ensures Nudges(sqrt, MultiplyScalar(Normalize(sqrt, target), ForceFactor), target)
  {
    var n := Normalize(sqrt, target);
    if target != Zero {
      var l := Length(sqrt, target);
      ScaleTwice(target, 1.0 / l, ForceFactor);
      assert 1.0 / l * ForceFactor == ForceFactor / l;
      LengthOfScale(sqrt, n, ForceFactor);
    }
  }

  lemma ScaleTwice(v: Vec3, a: real, b: real)
    ensures MultiplyScalar(MultiplyScalar(v, a), b) == MultiplyScalar(v, a * b)
  {
  }

  /** With no other bird the sum stays zero, and so does its scaled copy. */
  lemma ScaleOfEmptySum(vs: seq<Vec3>)
    ensures |vs| == 0 ==> MultiplyScalar(Sum(vs), ForceFactor) == Zero
  {
  }

  /** `align`: 0.01 along the mean velocity of all the other birds. */
  function Align(sqrt: real -> real, birds: seq<Bird>, self: nat): (r: Vec3)
    requires IsSqrt(sqrt)
    requires self < |birds|
    ensures |birds| == 1 ==> r == Zero
    ensures |birds| > 1 ==> Nudges(sqrt, r, Mean(VelocitiesOf(birds, Others(birds, self))))
  {
    var others := Others(birds, self);
    var sum := Sum(VelocitiesOf(birds, others));
    if |others| > 0 then
      NudgeOfNormalize(sqrt, DivideScalar(sum, |others| as real));
      MultiplyScalar(Normalize(sqrt, DivideScalar(sum, |others| as real)), ForceFactor)
    else
      ScaleOfEmptySum(VelocitiesOf(birds, others));
      MultiplyScalar(sum, ForceFactor)
  }

  /** `cohere`: 0.01 from the bird toward the mean position of all the other birds. */
  function Cohere(sqrt: real -> real, birds: seq<Bird>, self: nat): (r: Vec3)
    requires IsSqrt(sqrt)
    requires self < |birds|
    ensures |birds| == 1 ==> r == Zero
    ensures |birds| > 1 ==>
      Nudges(sqrt, r, Sub(Mean(PositionsOf(birds, Others(birds, self))), birds[self].position))
  {
    var others := Others(birds, self);
    var sum := Sum(PositionsOf(birds, others));
    if |others| > 0 then
      var toward := Sub(DivideScalar(sum, |others| as real), birds[self].position);
      NudgeOfNormalize(sqrt, toward);
      MultiplyScalar(Normalize(sqrt, toward), ForceFactor)
    else
      ScaleOfEmptySum(PositionsOf(birds, others));
      MultiplyScalar(sum, ForceFactor)
  }

  // ---------------------------------------------------------------------------
  // Separation
  // ---------------------------------------------------------------------------

  /**
   `diff.normalize().divideScalar(distance)` for a bird at a different point:
   the unit vector from `q` to `p` divided by the distance, so of length
   `1 / distance`.
   */
  function Push(sqrt: real -> real, p: Vec3, q: Vec3): (r: Vec3)
    requires IsSqrt(sqrt)
    requires p != q
    ensures 0.0 < DistanceTo(sqrt, p, q)
    ensures Length(sqrt, r) == 1.0 / DistanceTo(sqrt, p, q)
    ensures r == MultiplyScalar(Sub(p, q), 1.0 / Square(DistanceTo(sqrt, p, q)))
  {
    DistanceZeroIff(sqrt, p, q);
    RepelFacts(sqrt, p, q);
    DivideScalar(Normalize(sqrt, Sub(p, q)), DistanceTo(sqrt, p, q))
  }

  /**
   One close bird's push in `separate`, corrected: a bird at the very same
   point contributes nothing (see `RepelAsWritten` for what the script does
   there).
   */
  function Repel(sqrt: real -> real, p: Vec3, q: Vec3): (r: Vec3)
    requires IsSqrt(sqrt)
    ensures p == q ==> r == Zero
    ensures p != q ==>
      && 0.0 < DistanceTo(sqrt, p, q)
      && Length(sqrt, r) == 1.0 / DistanceTo(sqrt, p, q)
      && r == MultiplyScalar(Sub(p, q), 1.0 / Square(DistanceTo(sqrt, p, q)))
  {
    if p == q then Zero else Push(sqrt, p, q)
  }

  lemma RepelFacts(sqrt: real -> real, p: Vec3, q: Vec3)
    requires IsSqrt(sqrt)
    requires p != q
    ensures var d := DistanceTo(sqrt, p, q);
      && 0.0 < d
      && Length(sqrt, DivideScalar(Normalize(sqrt, Sub(p, q)), d)) == 1.0 / d
      && DivideScalar(Normalize(sqrt, Sub(p, q)), d) == MultiplyScalar(Sub(p, q), 1.0 / Square(d))
  {
    DistanceZeroIff(sqrt, p, q);
    SubZeroIff(p, q);
    var d := DistanceTo(sqrt, p, q);
    var n := Normalize(sqrt, Sub(p, q));
    LengthOfScale(sqrt, n, 1.0 / d);
    RepelDirection(Sub(p, q), d);
  }

  lemma RepelDirection(diff: Vec3, d: real)
    requires 0.0 < d
    ensures Square(d) != 0.0
    ensures MultiplyScalar(MultiplyScalar(diff, 1.0 / d), 1.0 / d) == MultiplyScalar(diff, 1.0 / Square(d))
  {
    var k := 1.0 / d;
    ReciprocalOfSquare(d);
    ScaleTwice(diff, k, k);
    SameScale(diff, k * k, 1.0 / Square(d));
  }

  lemma SameScale(v: Vec3, a: real, b: real)
    requires a == b
    ensures MultiplyScalar(v, a) == MultiplyScalar(v, b)
  {
  }

  function RepelsOf(sqrt: real -> real, birds: seq<Bird>, self: nat, ids: seq<nat>): (r: seq<Vec3>)
    requires IsSqrt(sqrt)
    requires self < |birds| && ValidIndices(birds, ids)
    ensures |r| == |ids|
    ensures forall k :: 0 <= k < |ids| ==> r[k] == Repel(sqrt, birds[self].position, birds[ids[k]].position)
  {
    seq(|ids|, k requires 0 <= k < |ids| => Repel(sqrt, birds[self].position, birds[ids[k]].position))
  }

  /**
   The loop of `separate` over the first `n` birds: every other bird closer
   than 1 adds its push, every other bird adds nothing. The result is the plain
   sum of the close birds' pushes, not an average.
   */
  function SeparationSumBelow(sqrt: real -> real, birds: seq<Bird>, self: nat, n: nat): (r: Vec3)
    requires IsSqrt(sqrt)
    requires self < |birds| && n <= |birds|
    ensures r == Sum(RepelsOf(sqrt, birds, self, CloseBelow(sqrt, birds, self, n)))
  {
    if n == 0 then
      Zero
    else
      var acc := SeparationSumBelow(sqrt, birds, self, n - 1);
      CloseSumStep(sqrt, birds, self, n);
      if IsClose(sqrt, birds, self, n - 1) then
        Add(acc, Repel(sqrt, birds[self].position, birds[n - 1].position))
      else
        acc
  }

  /** How the sum over the close birds grows when one more bird is looked at. */
  lemma CloseSumStep(sqrt: real -> real, birds: seq<Bird>, self: nat, n: nat)
    requires IsSqrt(sqrt)
    requires self < |birds| && 0 < n <= |birds|
    ensures var before := Sum(RepelsOf(sqrt, birds, self, CloseBelow(sqrt, birds, self, n - 1)));
      Sum(RepelsOf(sqrt, birds, self, CloseBelow(sqrt, birds, self, n)))
      == if IsClose(sqrt, birds, self, n - 1)
         then Add(before, Repel(sqrt, birds[self].position, birds[n - 1].position))
         else before
  {
    var before := CloseBelow(sqrt, birds, self, n - 1);
    if IsClose(sqrt, birds, self, n - 1) {
      assert CloseBelow(sqrt, birds, self, n) == before + [n - 1];
      SumSnoc(sqrt, birds, self, before, n - 1);
    } else {
      assert CloseBelow(sqrt, birds, self, n) == before;
    }
  }

  /** Appending one index appends its push, and adds it to the sum. */
  lemma SumSnoc(sqrt: real -> real, birds: seq<Bird>, self: nat, ids: seq<nat>, j: nat)
    requires IsSqrt(sqrt)
    requires self < |birds| && ValidIndices(birds, ids) && j < |birds|
    ensures ValidIndices(birds, ids + [j])
    ensures Sum(RepelsOf(sqrt, birds, self, ids + [j]))
         == Add(Sum(RepelsOf(sqrt, birds, self, ids)), Repel(sqrt, birds[self].position, birds[j].position))
  {
    var all := RepelsOf(sqrt, birds, self, ids + [j]);
    assert all[..|all| - 1] == RepelsOf(sqrt, birds, self, ids);
  }

  /** `separate`: the summed pushes of the birds closer than 1, times 0.01. */
  function Separate(sqrt: real -> real, birds: seq<Bird>, self: nat): (r: Vec3)
    requires IsSqrt(sqrt)
    requires self < |birds|
    ensures var close := CloseBelow(sqrt, birds, self, |birds|);
      && (|close| == 0 ==> r == Zero)
      && r == MultiplyScalar(Sum(RepelsOf(sqrt, birds, self, close)), ForceFactor)
  {
    ScaleOfEmptySum(RepelsOf(sqrt, birds, self, CloseBelow(sqrt, birds, self, |birds|)));
    MultiplyScalar(SeparationSumBelow(sqrt, birds, self, |birds|), ForceFactor)
  }

  // ---------------------------------------------------------------------------
  // Separation as the script writes it
  // ---------------------------------------------------------------------------

  /**
   A vector as the script's floating-point arithmetic leaves it: finite, or
   holding NaN, which every later addition and multiplication carries along.
   */
  datatype Reading = Finite(value: Vec3) | NaN

  /** Another bird at exactly the same point as `self`. */
  predicate IsCoincident(birds: seq<Bird>, self: nat, j: nat)
    requires self < |birds| && j < |birds|
  {
    j != self && birds[j].position == birds[self].position
  }

  /**
   One push exactly as written: `diff.normalize().divideScalar(d)` with no
   guard. For a coincident bird `d` is 0, the normalized difference is the
   zero vector, and `divideScalar(0)` multiplies 0 by Infinity, which is NaN.
   */
  function RepelAsWritten(sqrt: real -> real, p: Vec3, q: Vec3): (r: Reading)
    requires IsSqrt(sqrt)
    ensures p == q ==> r == NaN
    ensures p != q ==> r == Finite(Repel(sqrt, p, q))
  {
    DistanceZeroIff(sqrt, p, q);
    if DistanceTo(sqrt, p, q) == 0.0 then NaN else Finite(Push(sqrt, p, q))
  }

  /** `add` on readings: NaN in either operand gives NaN. */
  function AddReading(a: Reading, b: Reading): (r: Reading)
    ensures r == NaN <==> a == NaN || b == NaN
    ensures a.Finite? && b.Finite? ==> r == Finite(Add(a.value, b.value))
  {
    if a.NaN? || b.NaN? then NaN else Finite(Add(a.value, b.value))
  }

  /** The loop of `separate` over the first `n` birds, as written. */
  function SeparationSumAsWrittenBelow(sqrt: real -> real, birds: seq<Bird>, self: nat, n: nat): Reading
    requires IsSqrt(sqrt)
    requires self < |birds| && n <= |birds|
  {
    if n == 0 then
      Finite(Zero)
    else
      var acc := SeparationSumAsWrittenBelow(sqrt, birds, self, n - 1);
      if IsClose(sqrt, birds, self, n - 1) then
        AddReading(acc, RepelAsWritten(sqrt, birds[self].position, birds[n - 1].position))
      else
        acc
  }

  /** Once a coincident bird has been met the sum is NaN, and it stays NaN. */
  lemma {:induction false} CoincidentMakesSumNaN(sqrt: real -> real, birds: seq<Bird>, self: nat, n: nat, j: nat)
    requires IsSqrt(sqrt)
    requires self < |birds| && j < n <= |birds|
    requires IsCoincident(birds, self, j)
    ensures SeparationSumAsWrittenBelow(sqrt, birds, self, n) == NaN
    decreases n
  {
    if j == n - 1 {
      // At distance 0 the coincident bird passes the `d < 1` test.
      DistanceZeroIff(sqrt, birds[self].position, birds[j].position);
    } else {
      CoincidentMakesSumNaN(sqrt, birds, self, n - 1, j);
    }
  }

  /** Without a coincident bird the loop as written computes the corrected sum. */
  lemma {:induction false} ApartSumAgrees(sqrt: real -> real, birds: seq<Bird>, self: nat, n: nat)
    requires IsSqrt(sqrt)
    requires self < |birds| && n <= |birds|
    requires forall j :: 0 <= j < n ==> !IsCoincident(birds, self, j)
    ensures SeparationSumAsWrittenBelow(sqrt, birds, self, n) == Finite(SeparationSumBelow(sqrt, birds, self, n))
    decreases n
  {
    if n > 0 {
      ApartSumAgrees(sqrt, birds, self, n - 1);
      var p, q := birds[self].position, birds[n - 1].position;
      if IsClose(sqrt, birds, self, n - 1) {
        assert !IsCoincident(birds, self, n - 1);
        assert RepelAsWritten(sqrt, p, q) == Finite(Repel(sqrt, p, q));
      }
    }
  }

  /** `separate` as written: the sum times 0.01, NaN staying NaN. */
  function SeparateAsWritten(sqrt: real -> real, birds: seq<Bird>, self: nat): Reading
    requires IsSqrt(sqrt)
    requires self < |birds|
  {
    match SeparationSumAsWrittenBelow(sqrt, birds, self, |birds|)
    case NaN => NaN
    case Finite(sum) => Finite(MultiplyScalar(sum, ForceFactor))
  }

  /** Any other bird at the same point makes the script's separation NaN. */
  lemma CoincidentMakesSeparateNaN(sqrt: real -> real, birds: seq<Bird>, self: nat, j: nat)
    requires IsSqrt(sqrt)
    requires self < |birds| && j < |birds|
    requires IsCoincident(birds, self, j)
    ensures SeparateAsWritten(sqrt, birds, self) == NaN
  {
    CoincidentMakesSumNaN(sqrt, birds, self, |birds|, j);
  }

  /** With no coincident bird, the script's separation is the corrected one. */
  lemma ApartSeparateAgrees(sqrt: real -> real, birds: seq<Bird>, self: nat)
    requires IsSqrt(sqrt)
    requires self < |birds|
    requires forall j :: 0 <= j < |birds| ==> !IsCoincident(birds, self, j)
    ensures SeparateAsWritten(sqrt, birds, self) == Finite(Separate(sqrt, birds, self))
  {
    ApartSumAgrees(sqrt, birds, self, |birds|);
  }

  /**
   Two birds at the origin: the script's separation for the first one is NaN,
   where the evidently intended result, with the coincident bird skipped, is
   the zero vector.
   */
  lemma CoincidentBirdsGiveNaN(sqrt: real -> real)
    requires IsSqrt(sqrt)
    ensures var birds := [Bird(Zero, Zero), Bird(Zero, Zero)];
      && SeparateAsWritten(sqrt, birds, 0) == NaN
      && Separate(sqrt, birds, 0) == Zero
  {
    var birds := [Bird(Zero, Zero), Bird(Zero, Zero)];
    CoincidentMakesSeparateNaN(sqrt, birds, 0, 1);
    DistanceZeroIff(sqrt, Zero, Zero);
    assert !IsClose(sqrt, birds, 0, 0);
    assert CloseBelow(sqrt, birds, 0, 1) == [];
    assert CloseBelow(sqrt, birds, 0, 2) == [1];
    assert RepelsOf(sqrt, birds, 0, [1]) == [Zero];
    assert Sum([Zero]) == Add(Sum([]), Zero);
  }

  // ---------------------------------------------------------------------------
  // Integration
  // ---------------------------------------------------------------------------

  /** One axis of the boundary check: past 5 jumps to -5, then below -5 jumps to 5. */
  function WrapAxis(c: real): (r: real)
    ensures -Bound <= r <= Bound
    ensures -Bound <= c <= Bound ==> r == c
    ensures c > Bound ==> r == -Bound
    ensures c < -Bound ==> r == Bound
  {
    var c1 := if c > Bound then -Bound else c;
    if c1 < -Bound then Bound else c1
  }

  predicate InCube(p: Vec3) {
    -Bound <= p.x <= Bound && -Bound <= p.y <= Bound && -Bound <= p.z <= Bound
  }

  function WrapCube(p: Vec3): (r: Vec3)
    ensures InCube(r)
    ensures InCube(p) ==> r == p
  {
    Vec3(WrapAxis(p.x), WrapAxis(p.y), WrapAxis(p.z))
  }

  /** The velocity `update` adds up before clamping it. */
  function Steered(sqrt: real -> real, birds: seq<Bird>, self: nat): Vec3
    requires IsSqrt(sqrt)
    requires self < |birds|
  {
    Add(Add(Add(birds[self].velocity, Align(sqrt, birds, self)), Cohere(sqrt, birds, self)),
        Separate(sqrt, birds, self))
  }

  /**
   `update`: add the three rules to the velocity and clamp its length to 0.2;
   move by the new velocity; wrap each axis into `[-5, 5]`.
   */
  function Update(sqrt: real -> real, birds: seq<Bird>, self: nat): (r: Bird)
    requires IsSqrt(sqrt)
    requires self < |birds|
    ensures Length(sqrt, r.velocity) <= SpeedLimit
    ensures InCube(r.position)
    ensures var w := Steered(sqrt, birds, self);
      && (Length(sqrt, w) <= SpeedLimit ==> r.velocity == w)
      && (Length(sqrt, w) > SpeedLimit ==>
            && Length(sqrt, r.velocity) == SpeedLimit
            && r.velocity == MultiplyScalar(w, SpeedLimit / Length(sqrt, w)))
    ensures r.position == WrapCube(Add(birds[self].position, r.velocity))
  {
    var v := ClampLength(sqrt, Steered(sqrt, birds, self), 0.0, SpeedLimit);
    Bird(WrapCube(Add(birds[self].position, v)), v)
  }
}
