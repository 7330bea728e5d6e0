/**
 The part of `THREE.Vector3` that the 3-D script uses, as an immutable value
 type over `real`. Each operation follows the library's own definition:
 `divideScalar(s)` multiplies by `1 / s`, `normalize()` divides by
 `length() || 1` (so the zero vector stays zero), and `clampLength(min, max)`
 divides by `length() || 1` and multiplies by the clamped length.
 */
module Vector3 {
  import opened Arith
  import opened Roots

  datatype Vec3 = Vec3(x: real, y: real, z: real)

  const Zero: Vec3 := Vec3(0.0, 0.0, 0.0)

  function Add(a: Vec3, b: Vec3): Vec3 {
    Vec3(a.x + b.x, a.y + b.y, a.z + b.z)
  }

  function Sub(a: Vec3, b: Vec3): Vec3 {
    Vec3(a.x - b.x, a.y - b.y, a.z - b.z)
  }

  function MultiplyScalar(v: Vec3, s: real): Vec3 {
    Vec3(v.x * s, v.y * s, v.z * s)
  }

  function DivideScalar(v: Vec3, s: real): Vec3
    requires s != 0.0
  {
    MultiplyScalar(v, 1.0 / s)
  }

  function LengthSq(v: Vec3): real {
    Square(v.x) + Square(v.y) + Square(v.z)
  }

  /** `length()`: the non-negative real whose square is `x² + y² + z²`. */
  function Length(sqrt: real -> real, v: Vec3): (r: real)
    requires IsSqrt(sqrt)
    ensures 0.0 <= r
  {
    SquareNonneg(v.x);
    SquareNonneg(v.y);
    SquareNonneg(v.z);
    RootOf(sqrt, LengthSq(v));
    sqrt(LengthSq(v))
  }

  /** `p.distanceTo(q)`. */
  function DistanceTo(sqrt: real -> real, p: Vec3, q: Vec3): real
    requires IsSqrt(sqrt)
  {
    Length(sqrt, Sub(p, q))
  }

  function Max(a: real, b: real): real {
    if a >= b then a else b
  }

  function Min(a: real, b: real): real {
    if a <= b then a else b
  }

  /** `length() || 1`: the divisor `normalize` and `clampLength` use. */
  function LengthOrOne(sqrt: real -> real, v: Vec3): (r: real)
    requires IsSqrt(sqrt)
    ensures r != 0.0
  {
    var l := Length(sqrt, v);
    if l == 0.0 then 1.0 else l
  }

  /** `normalize()`: a unit vector along `v`, or the zero vector when `v` is zero. */
  function Normalize(sqrt: real -> real, v: Vec3): (r: Vec3)
    requires IsSqrt(sqrt)
    ensures v == Zero ==> r == Zero
    ensures v != Zero ==>
      && Length(sqrt, v) != 0.0
      && Length(sqrt, r) == 1.0
      && r == MultiplyScalar(v, 1.0 / Length(sqrt, v))
  {
    LengthZeroIff(sqrt, v);
    if v == Zero then
      DivideScalar(v, LengthOrOne(sqrt, v))
    else
      RescaleFacts(sqrt, v, 1.0);
      DivideScalar(v, LengthOrOne(sqrt, v))
  }

  /**
   `clampLength(min, max)`: for `0 <= min <= max`, a vector whose length is
   within the bounds is kept, a longer one is shortened to length `max` along
   the same direction, and the result is never longer than `max`.
   */
  function ClampLength(sqrt: real -> real, v: Vec3, min: real, max: real): (r: Vec3)
    requires IsSqrt(sqrt)
    ensures 0.0 <= min <= max ==> Length(sqrt, r) <= max
    ensures min <= Length(sqrt, v) <= max ==> r == v
    ensures 0.0 <= min <= max < Length(sqrt, v) ==>
      && Length(sqrt, r) == max
      && r == MultiplyScalar(v, max / Length(sqrt, v))
  {
    ClampFacts(sqrt, v, min, max);
    MultiplyScalar(DivideScalar(v, LengthOrOne(sqrt, v)), ClampedLength(sqrt, v, min, max))
  }

  /** `clampLength`'s arithmetic: the clamped length, then the rescaled vector. */
  function ClampedLength(sqrt: real -> real, v: Vec3, min: real, max: real): real
    requires IsSqrt(sqrt)
  {
    Max(min, Min(max, Length(sqrt, v)))
  }

  lemma ClampFacts(sqrt: real -> real, v: Vec3, min: real, max: real)
    requires IsSqrt(sqrt)
    ensures var l := Length(sqrt, v);
      var r := MultiplyScalar(DivideScalar(v, LengthOrOne(sqrt, v)), ClampedLength(sqrt, v, min, max));
      && (0.0 <= min <= max ==> Length(sqrt, r) <= max)
      && (min <= l <= max ==> r == v)
      && (0.0 <= min <= max < l ==> Length(sqrt, r) == max && r == MultiplyScalar(v, max / l))
  {
    var l := Length(sqrt, v);
    var k := ClampedLength(sqrt, v, min, max);
    assert min <= max ==> min <= k <= max;
    assert min <= l <= max ==> k == l;
    assert min <= max < l ==> k == max;
    if v == Zero {
      LengthZeroIff(sqrt, v);
      ZeroStaysZero(LengthOrOne(sqrt, v), k);
    } else {
      ScaleNonZero(sqrt, v, k);
    }
  }

  lemma ZeroStaysZero(d: real, k: real)
    requires d != 0.0
    ensures MultiplyScalar(DivideScalar(Zero, d), k) == Zero
  {
  }

  lemma ScaleNonZero(sqrt: real -> real, v: Vec3, k: real)
    requires IsSqrt(sqrt)
    requires v != Zero
    ensures var l := Length(sqrt, v);
      var r := MultiplyScalar(DivideScalar(v, LengthOrOne(sqrt, v)), k);
      && l != 0.0
      && r == MultiplyScalar(v, k / l)
      && (0.0 <= k ==> Length(sqrt, r) == k)
      && (k == l ==> r == v)
  {
    var l := Length(sqrt, v);
    LengthZeroIff(sqrt, v);
    DivideThenMultiply(v, l, k);
    if 0.0 <= k {
      RescaleFacts(sqrt, v, k);
    }
    if k == l {
      ScaleByOne(v, k, l);
    }
  }

  lemma ScaleByOne(v: Vec3, k: real, l: real)
    requires l != 0.0 && k == l
    ensures MultiplyScalar(v, k / l) == v
  {
  }

  /** The square of the length is the sum of the squared components. */
  lemma LengthSquared(sqrt: real -> real, v: Vec3)
    requires IsSqrt(sqrt)
    ensures Square(Length(sqrt, v)) == LengthSq(v)
  {
    SquareNonneg(v.x);
    SquareNonneg(v.y);
    SquareNonneg(v.z);
    RootOf(sqrt, LengthSq(v));
  }

  lemma SubZeroIff(p: Vec3, q: Vec3)
    ensures Sub(p, q) == Zero <==> p == q
  {
  }

  /** Only the zero vector has length zero. */
  lemma LengthZeroIff(sqrt: real -> real, v: Vec3)
    requires IsSqrt(sqrt)
    ensures Length(sqrt, v) == 0.0 <==> v == Zero
  {
    SquareNonneg(v.x);
    SquareNonneg(v.y);
    SquareNonneg(v.z);
    SquareZeroIff(v.x);
    SquareZeroIff(v.y);
    SquareZeroIff(v.z);
    RootZeroIff(sqrt, LengthSq(v));
  }

  /** Two points are at distance zero exactly when they coincide. */
  lemma DistanceZeroIff(sqrt: real -> real, p: Vec3, q: Vec3)
    requires IsSqrt(sqrt)
    ensures DistanceTo(sqrt, p, q) == 0.0 <==> p == q
  {
    SubZeroIff(p, q);
    LengthZeroIff(sqrt, Sub(p, q));
  }

  /** Scaling by a non-negative factor scales the length by that factor. */
  lemma LengthOfScale(sqrt: real -> real, v: Vec3, k: real)
    requires IsSqrt(sqrt)
    requires 0.0 <= k
    ensures Length(sqrt, MultiplyScalar(v, k)) == k * Length(sqrt, v)
  {
    var l := Length(sqrt, v);
    LengthSquared(sqrt, v);
    SquareOfProduct(v.x, k);
    SquareOfProduct(v.y, k);
    SquareOfProduct(v.z, k);
    SquareOfProduct(k, l);
    assert LengthSq(MultiplyScalar(v, k)) == Square(k * l);
    MulMonoLe(k, 0.0, l);
    RootOfSquare(sqrt, k * l);
  }

  lemma DivideThenMultiply(v: Vec3, d: real, s: real)
    requires d != 0.0
    ensures MultiplyScalar(DivideScalar(v, d), s) == MultiplyScalar(v, s / d)
  {
  }

  /**
   `v / |v| * s` for a non-zero `v`: a positive multiple of `v` of length
   exactly `s`.
   */
  lemma RescaleFacts(sqrt: real -> real, v: Vec3, s: real)
    requires IsSqrt(sqrt)
    requires v != Zero && 0.0 <= s
    ensures Length(sqrt, v) != 0.0
    ensures MultiplyScalar(DivideScalar(v, Length(sqrt, v)), s) == MultiplyScalar(v, s / Length(sqrt, v))
    ensures Length(sqrt, MultiplyScalar(v, s / Length(sqrt, v))) == s
  {
    var l := Length(sqrt, v);
    LengthZeroIff(sqrt, v);
    LengthOfScale(sqrt, v, s / l);
    DivideThenMultiply(v, l, s);
  }
}
