/**
 Small facts of ordered-field arithmetic. Products that the proofs reason
 about are named (`Mul`, `Square`) rather than written `a * b`: the solver
 handles a chain of comparisons between named products reliably, and the
 lemmas below unfold the names only where a product has to be computed.
 */
module Arith {

  function Mul(a: real, b: real): real {
    a * b
  }

  function Square(a: real): real {
    a * a
  }

  lemma SquareIsMul(a: real)
    ensures Square(a) == Mul(a, a)
  {
  }

  lemma MulComm(a: real, b: real)
    ensures Mul(a, b) == Mul(b, a)
  {
  }

  lemma MulMonoLe(a: real, b: real, c: real)
    requires 0.0 <= a && b <= c
    ensures Mul(a, b) <= Mul(a, c)
  {
    assert a * c - a * b == a * (c - b);
  }

  lemma MulMonoLt(a: real, b: real, c: real)
    requires 0.0 < a && b < c
    ensures Mul(a, b) < Mul(a, c)
  {
    assert a * c - a * b == a * (c - b);
  }

  /** A product is zero only if a factor is. */
  lemma ZeroFactor(a: real, b: real)
    requires Mul(a, b) == 0.0 && b != 0.0
    ensures a == 0.0
  {
    if a != 0.0 {
      if 0.0 < b {
        if 0.0 < a {
          MulMonoLt(a, 0.0, b);
        } else {
          MulMonoLt(b, a, 0.0);
          MulComm(a, b);
        }
      } else {
        if 0.0 < a {
          MulMonoLt(a, b, 0.0);
        } else {
          MulMonoLt(-b, 0.0, -a);
        }
      }
    }
  }

  lemma SquareNonneg(a: real)
    ensures 0.0 <= Square(a)
  {
  }

  lemma SquareZeroIff(a: real)
    ensures Square(a) == 0.0 <==> a == 0.0
  {
    SquareIsMul(a);
    if a != 0.0 && Square(a) == 0.0 {
      ZeroFactor(a, a);
    }
  }

  lemma SquarePos(a: real)
    requires a != 0.0
    ensures 0.0 < Square(a)
  {
    SquareNonneg(a);
    SquareZeroIff(a);
  }

  /** On the non-negative reals, squaring preserves and reflects `<`. */
  lemma SquareLessIff(r: real, c: real)
    requires 0.0 <= r && 0.0 <= c
    ensures r < c <==> Square(r) < Square(c)
  {
    SquareIsMul(r);
    SquareIsMul(c);
    MulComm(r, c);
    if r < c {
      MulMonoLe(r, r, c);
      MulMonoLt(c, r, c);
    } else {
      MulMonoLe(c, c, r);
      MulMonoLe(r, c, r);
    }
  }

  /** Two non-negative reals with the same square are equal. */
  lemma SquareInjective(r: real, c: real)
    requires 0.0 <= r && 0.0 <= c
    requires Square(r) == Square(c)
    ensures r == c
  {
    SquareLessIff(r, c);
    SquareLessIff(c, r);
  }

  lemma SquareOfProduct(a: real, b: real)
    ensures Square(a * b) == Square(a) * Square(b)
  {
  }

  /** The reciprocal of a square is the square of the reciprocal. */
  lemma ReciprocalOfSquare(d: real)
    requires d != 0.0
    ensures Square(d) != 0.0 && 1.0 / d * (1.0 / d) == 1.0 / Square(d)
  {
    SquareZeroIff(d);
    var e := 1.0 / d;
    assert e * d == 1.0;
    assert Square(d) == d * d;
    assert (e * e) * (d * d) == (e * d) * (e * d);
  }
}
