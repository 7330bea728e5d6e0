/**
 The plain `{x, y}` objects of the 2-D script, as an immutable value type over
 `real`. A length is `Math.hypot` of the two components.
 */
module Vector2 {
  import opened Arith
  import opened Roots

  datatype Vec2 = Vec2(x: real, y: real)

  const Zero: Vec2 := Vec2(0.0, 0.0)

  function Add(a: Vec2, b: Vec2): Vec2 {
    Vec2(a.x + b.x, a.y + b.y)
  }

  function Sub(a: Vec2, b: Vec2): Vec2 {
    Vec2(a.x - b.x, a.y - b.y)
  }

  function Scale(v: Vec2, k: real): Vec2 {
    Vec2(v.x * k, v.y * k)
  }

  /** Component-wise division, `v.x /= d; v.y /= d`. */
  function Div(v: Vec2, d: real): Vec2
    requires d != 0.0
  {
    Vec2(v.x / d, v.y / d)
  }

  function SqNorm(v: Vec2): real {
    Square(v.x) + Square(v.y)
  }

  /** `Math.hypot(v.x, v.y)`: the non-negative real whose square is `x² + y²`. */
  function Len(sqrt: real -> real, v: Vec2): (r: real)
    requires IsSqrt(sqrt)
    ensures 0.0 <= r
  {
    SquareNonneg(v.x);
    SquareNonneg(v.y);
    RootOf(sqrt, SqNorm(v));
    sqrt(SqNorm(v))
  }

  /** `Math.hypot(p.x - q.x, p.y - q.y)`, the distance every rule tests. */
  function Dist(sqrt: real -> real, p: Vec2, q: Vec2): real
    requires IsSqrt(sqrt)
  {
    Len(sqrt, Sub(p, q))
  }

  /** Only the zero vector has length zero. */
  lemma LenZeroIff(sqrt: real -> real, v: Vec2)
    requires IsSqrt(sqrt)
    ensures Len(sqrt, v) == 0.0 <==> v == Zero
  {
    SquareNonneg(v.x);
    SquareNonneg(v.y);
    SquareZeroIff(v.x);
    SquareZeroIff(v.y);
    RootZeroIff(sqrt, SqNorm(v));
  }

  /** The square of the length is the sum of the squared components. */
  lemma LenSquared(sqrt: real -> real, v: Vec2)
    requires IsSqrt(sqrt)
    ensures Square(Len(sqrt, v)) == SqNorm(v)
  {
    SquareNonneg(v.x);
    SquareNonneg(v.y);
    RootOf(sqrt, SqNorm(v));
  }

  lemma SubZeroIff(p: Vec2, q: Vec2)
    ensures Sub(p, q) == Zero <==> p == q
  {
  }

  /** Two points are at distance zero exactly when they coincide. */
  lemma DistZeroIff(sqrt: real -> real, p: Vec2, q: Vec2)
    requires IsSqrt(sqrt)
    ensures Dist(sqrt, p, q) == 0.0 <==> p == q
  {
    SubZeroIff(p, q);
    LenZeroIff(sqrt, Sub(p, q));
  }

  /** Scaling by a non-negative factor scales the length by that factor. */
  lemma LenOfScale(sqrt: real -> real, v: Vec2, k: real)
    requires IsSqrt(sqrt)
    requires 0.0 <= k
    ensures Len(sqrt, Scale(v, k)) == k * Len(sqrt, v)
  {
    var l := Len(sqrt, v);
    LenSquared(sqrt, v);
    SquareOfProduct(v.x, k);
    SquareOfProduct(v.y, k);
    SquareOfProduct(k, l);
    assert SqNorm(Scale(v, k)) == Square(k * l);
    MulMonoLe(k, 0.0, l);
    RootOfSquare(sqrt, k * l);
  }

  /** A non-zero vector rescaled by `s / |v|` has length exactly `s`. */
  lemma LenOfRescale(sqrt: real -> real, v: Vec2, s: real)
    requires IsSqrt(sqrt)
    requires v != Zero && 0.0 <= s
    ensures Len(sqrt, v) != 0.0
    ensures Len(sqrt, Scale(v, s / Len(sqrt, v))) == s
  {
    var l := Len(sqrt, v);
    LenZeroIff(sqrt, v);
    LenOfScale(sqrt, v, s / l);
  }

  /** Dividing by `d` then multiplying by `s` is one scaling by `s / d`. */
  lemma DivThenScale(v: Vec2, d: real, s: real)
    requires d != 0.0
    ensures Scale(Div(v, d), s) == Scale(v, s / d)
  {
  }

  lemma AddSubCancel(a: Vec2, v: Vec2)
    ensures Add(Sub(a, v), v) == a
  {
  }

  /**
   `(v / |v|) * s` for a non-zero `v`: a positive multiple of `v` of length
   exactly `s`.
   */
  lemma RescaleFacts(sqrt: real -> real, v: Vec2, s: real)
    requires IsSqrt(sqrt)
    requires v != Zero && 0.0 <= s
    ensures Len(sqrt, v) != 0.0
    ensures Scale(Div(v, Len(sqrt, v)), s) == Scale(v, s / Len(sqrt, v))
    ensures Len(sqrt, Scale(Div(v, Len(sqrt, v)), s)) == s
  {
    LenOfRescale(sqrt, v, s);
    DivThenScale(v, Len(sqrt, v), s);
  }
}
