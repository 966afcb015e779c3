/** Facts about real products that the collision physics needs.

    Signs of products are stated about `Mul` and `Sq` rather than about `*`
    directly, so that a fact established once can be reused wherever the
    same product appears. */
module RealArith {

  /** The product of two reals. */
  function Mul(a: real, b: real): real { a * b }

  /** The square of a real. */
  function Sq(a: real): real { Mul(a, a) }

  /** The sign of a product follows the signs of its factors. */
  lemma MulSign(a: real, b: real)
    ensures Mul(a, b) > 0.0 <==> (a > 0.0 && b > 0.0) || (a < 0.0 && b < 0.0)
    ensures Mul(a, b) < 0.0 <==> (a > 0.0 && b < 0.0) || (a < 0.0 && b > 0.0)
    ensures Mul(a, b) == 0.0 <==> a == 0.0 || b == 0.0
  {
    if a > 0.0 && b > 0.0 {
      assert a * b > 0.0;
    } else if a < 0.0 && b < 0.0 {
      assert (-a) * (-b) > 0.0;
    } else if a > 0.0 && b < 0.0 {
      assert a * (-b) > 0.0;
    } else if a < 0.0 && b > 0.0 {
      assert (-a) * b > 0.0;
    }
  }

  /** A square is never negative, and it is zero only at zero. */
  lemma SquareNonNegative(a: real)
    ensures Sq(a) >= 0.0
    ensures Sq(a) > 0.0 <==> a != 0.0
  {
    MulSign(a, a);
  }

  /** A sum of two squares is zero exactly when both roots are. */
  lemma SumOfSquaresPositive(a: real, b: real)
    ensures Sq(a) + Sq(b) >= 0.0
    ensures Sq(a) + Sq(b) > 0.0 <==> a != 0.0 || b != 0.0
  {
    SquareNonNegative(a);
    SquareNonNegative(b);
  }

  /** A non-zero factor can be cancelled from a zero product. */
  lemma CancelFactor(x: real, m: real)
    requires m != 0.0 && Mul(x, m) == 0.0
    ensures x == 0.0
  {
    MulSign(x, m);
  }

  /** For a non-negative d, comparing d with s is comparing their squares,
      provided s is not negative. */
  lemma SquareMonotone(d: real, s: real)
    requires d >= 0.0
    ensures d <= s <==> s >= 0.0 && Sq(d) <= Sq(s)
  {
    assert Sq(s) - Sq(d) == Mul(s - d, s + d);
    MulSign(s - d, s + d);
  }
}
