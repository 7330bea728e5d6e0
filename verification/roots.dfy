/**
 Square roots. Dafny's `real` has no square root of its own, and the flocking
 code only ever uses one through a library call (`Math.hypot` in the 2-D
 script, `Vector3.length` in the 3-D one). Every length in this model is
 therefore taken through a root function passed in as a parameter, and the
 only thing the model knows about it is `IsSqrt`: on non-negative reals it
 returns the non-negative root.
 */
module Roots {
  import opened Arith

  /**
   `sqrt(t)`, under a name of its own so that the quantifier in `IsSqrt` is
   instantiated only where a proof asks for it (through `RootOf`).
   */
  function Root(sqrt: real -> real, t: real): real {
    sqrt(t)
  }

  /** `sqrt` is a square root on the non-negative reals. */
  ghost predicate IsSqrt(sqrt: real -> real) {
    forall t: real {:trigger Root(sqrt, t)} :: 0.0 <= t ==> 0.0 <= Root(sqrt, t) && Square(Root(sqrt, t)) == t
  }

  /** The facts about one root. */
  lemma RootOf(sqrt: real -> real, t: real)
    requires IsSqrt(sqrt)
    requires 0.0 <= t
    ensures 0.0 <= sqrt(t) && Square(sqrt(t)) == t
  {
    assert Root(sqrt, t) == sqrt(t);
  }

  /** The root of a square is the non-negative base: the root is unique. */
  lemma RootOfSquare(sqrt: real -> real, c: real)
    requires IsSqrt(sqrt)
    requires 0.0 <= c
    ensures sqrt(Square(c)) == c
  {
    SquareNonneg(c);
    RootOf(sqrt, Square(c));
    SquareInjective(sqrt(Square(c)), c);
  }

  /** The root is zero exactly at zero. */
  lemma RootZeroIff(sqrt: real -> real, t: real)
    requires IsSqrt(sqrt)
    requires 0.0 <= t
    ensures sqrt(t) == 0.0 <==> t == 0.0
  {
    RootOf(sqrt, t);
    SquareZeroIff(sqrt(t));
  }

  /** Comparing a root with a bound is comparing the radicand with the bound's square. */
  lemma RootLessIff(sqrt: real -> real, t: real, c: real)
    requires IsSqrt(sqrt)
    requires 0.0 <= t && 0.0 <= c
    ensures sqrt(t) < c <==> t < Square(c)
  {
    RootOf(sqrt, t);
    SquareLessIff(sqrt(t), c);
  }
}
