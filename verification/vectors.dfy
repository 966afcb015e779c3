/**
  Two-dimensional vectors (`PhysicsVector`) over the reals.

  Every operation returns a new value; a Dafny datatype value cannot be
  changed in place, so "the receiver is left unchanged" and "a clone is
  independent of its original" hold by construction.
*/
module Vectors {

  import opened RealArith

  datatype Vec = Vec(x: real, y: real)

  const Zero: Vec := Vec(0.0, 0.0)

  /** The square of `getMagnitude`; the model avoids the square root. */
  function MagnitudeSquared(v: Vec): real {
    Sq(v.x) + Sq(v.y)
  }

  /** `scalarMultiply`: stretches the vector by `k`. */
  function ScalarMultiply(v: Vec, k: real): Vec {
    Vec(v.x * k, v.y * k)
  }

  /** Scaling by `k` scales the length by |k|, so the squared length by `k` squared. */
  lemma ScalarMultiplyMagnitude(v: Vec, k: real)
    ensures MagnitudeSquared(ScalarMultiply(v, k)) == Sq(k) * MagnitudeSquared(v)
  {
  }

  /** `add`: componentwise sum; subtracting `w` again gives back `v`. */
  function Add(v: Vec, w: Vec): (r: Vec)
    ensures Subtract(r, w) == v
  {
    Vec(v.x + w.x, v.y + w.y)
  }

  /** `subtract`: componentwise difference; adding `w` back gives `v`. */
  function Subtract(v: Vec, w: Vec): (r: Vec)
    ensures r.x + w.x == v.x && r.y + w.y == v.y
  {
    Vec(v.x - w.x, v.y - w.y)
  }

  /** `dotProduct`. */
  function DotProduct(v: Vec, w: Vec): real {
    v.x * w.x + v.y * w.y
  }

  /** `getNormal`: the vector turned a quarter turn anticlockwise. It is
      perpendicular to `v` and just as long. */
  function Normal(v: Vec): (r: Vec)
    ensures DotProduct(v, r) == 0.0
    ensures MagnitudeSquared(r) == MagnitudeSquared(v)
  {
    Vec(-v.y, v.x)
  }

  /** `invert`: the opposite vector, which cancels `v` and is just as long. */
  function Invert(v: Vec): (r: Vec)
    ensures Add(v, r) == Zero
    ensures MagnitudeSquared(r) == MagnitudeSquared(v)
  {
    Vec(-v.x, -v.y)
  }

  /** `clone`: an equal vector. Values cannot be shared mutably, so the
      copy is independent by construction. */
  function Clone(v: Vec): (r: Vec)
    ensures r == v
  {
    Vec(v.x, v.y)
  }

  /**
    `toUnitVector`: each component divided by the magnitude. The magnitude
    is passed in as `mag`, the non-negative root of the squared magnitude;
    the source divides by zero for the zero vector, so `mag` must be positive.
    The result has length one and points the same way as `v`.
  */
  function ToUnitVector(v: Vec, mag: real): (u: Vec)
    requires mag > 0.0 && Sq(mag) == MagnitudeSquared(v)
    ensures MagnitudeSquared(u) == 1.0
    ensures ScalarMultiply(u, mag) == v
    ensures DotProduct(u, v) == mag
  {
    ScaledDownByRoot(v.x, v.y, mag, v.x / mag, v.y / mag);
    Vec(v.x / mag, v.y / mag)
  }

  /** Dividing the legs of a right triangle by its hypotenuse gives a unit
      vector whose projection on the original legs is the hypotenuse. */
  lemma ScaledDownByRoot(a: real, b: real, m: real, p: real, q: real)
    requires m > 0.0 && Sq(m) == Sq(a) + Sq(b)
    requires p * m == a && q * m == b
    ensures Sq(p) + Sq(q) == 1.0
    ensures p * a + q * b == m
  {
    assert Mul(Sq(p) + Sq(q) - 1.0, Sq(m)) == 0.0;
    SquareNonNegative(m);
    CancelFactor(Sq(p) + Sq(q) - 1.0, Sq(m));
    assert Mul(p * a + q * b - m, m) == 0.0;
    CancelFactor(p * a + q * b - m, m);
  }

  /** The squared magnitude is never negative, and is positive exactly for non-zero vectors. */
  lemma MagnitudeSquaredPositive(v: Vec)
    ensures MagnitudeSquared(v) >= 0.0
    ensures MagnitudeSquared(v) > 0.0 <==> v != Zero
  {
    SumOfSquaresPositive(v.x, v.y);
  }

  /** `add` does not depend on the order of its operands. */
  lemma AddCommutes(v: Vec, w: Vec)
    ensures Add(v, w) == Add(w, v)
  {
  }

  /** `a.subtract(b)` is the inverse of `b.subtract(a)`. */
  lemma SubtractIsInvertedReverse(v: Vec, w: Vec)
    ensures Subtract(v, w) == Invert(Subtract(w, v))
  {
  }

  /** `dotProduct` does not depend on the order of its operands. */
  lemma DotProductSymmetric(v: Vec, w: Vec)
    ensures DotProduct(v, w) == DotProduct(w, v)
  {
  }

  /** Scaling one operand scales the dot product. */
  lemma DotProductScales(v: Vec, k: real, w: Vec)
    ensures DotProduct(ScalarMultiply(v, k), w) == k * DotProduct(v, w)
  {
  }

  /** Two quarter turns are a half turn. */
  lemma NormalTwiceInverts(v: Vec)
    ensures Normal(Normal(v)) == Invert(v)
  {
  }

  /** Inverting twice gives the original vector. */
  lemma InvertInvolution(v: Vec)
    ensures Invert(Invert(v)) == v
  {
  }

  /**
    A unit vector `u` and its normal form an orthonormal basis: any vector
    is the sum of its projections on the two.
  */
  lemma OrthonormalDecomposition(u: Vec, w: Vec)
    requires MagnitudeSquared(u) == 1.0
    ensures Add(ScalarMultiply(u, DotProduct(u, w)), ScalarMultiply(Normal(u), DotProduct(Normal(u), w))) == w
  {
    assert u.x * DotProduct(u, w) - u.y * DotProduct(Normal(u), w) == (Sq(u.x) + Sq(u.y)) * w.x;
    assert u.y * DotProduct(u, w) + u.x * DotProduct(Normal(u), w) == (Sq(u.x) + Sq(u.y)) * w.y;
  }
}
