/**
  The bodies of the simulation (`Thing`, and its subclasses `Ball` and
  `GasParticle`, which only fix constants).

  A body is an immutable value. The source mutates a body's velocity in
  place; here every step returns the updated body, and a list of bodies is
  a `seq<Body>` in which a body is identified by its index.
*/
module Things {

  import opened RealArith
  import opened Vectors

  /** The fill colour, carried along as red, green and blue intensities. */
  datatype Fill = Fill(red: real, green: real, blue: real)

  /** `Color.BLACK`, the fill of a body created without one. */
  const Black: Fill := Fill(0.0, 0.0, 0.0)

  /** A body: centre (x, y), radius `size`, `mass`, velocity `v` and fill. */
  datatype Body = Body(x: real, y: real, size: int, mass: int, v: Vec, fill: Fill)

  /** The radius of every `Ball`. */
  const BallSize: int := 20

  /** The radius and the mass of every `GasParticle`. */
  const GasSize: int := 5
  const GasMass: int := 1

  /** A `Ball`: a body of radius `BallSize`. */
  function Ball(x: real, y: real, mass: int, v: Vec, fill: Fill): (b: Body)
    ensures b.size == BallSize && Position(b) == Vec(x, y) && b.mass == mass && b.v == v && b.fill == fill
  {
    Body(x, y, BallSize, mass, v, fill)
  }

  /** A `GasParticle`: a black body of radius `GasSize` and mass `GasMass`
      centred on integer coordinates. */
  function GasParticle(x: int, y: int, v: Vec): (b: Body)
    ensures b.size == GasSize && b.mass == GasMass && b.fill == Black
    ensures Position(b) == Vec(x as real, y as real) && b.v == v
  {
    Body(x as real, y as real, GasSize, GasMass, v, Black)
  }

  /** `getPositionVector`. */
  function Position(b: Body): Vec {
    Vec(b.x, b.y)
  }

  /** `getMomentumVector`: velocity scaled by mass. */
  function Momentum(b: Body): Vec {
    ScalarMultiply(b.v, b.mass as real)
  }

  /** Twice the kinetic energy, m|v|^2. The source never computes it; it
      is the quantity the collision rule conserves. */
  function Energy(b: Body): real {
    (b.mass as real) * MagnitudeSquared(b.v)
  }

  /** The same body with another velocity. */
  function WithVelocity(b: Body, v: Vec): (r: Body)
    ensures Position(r) == Position(b) && r.v == v
    ensures r.size == b.size && r.mass == b.mass && r.fill == b.fill
  {
    b.(v := v)
  }

  /** The first step of `move`: the centre advances by the velocity. */
  function Displace(b: Body): (r: Body)
    ensures Position(r) == Add(Position(b), b.v)
    ensures r.v == b.v && r.size == b.size && r.mass == b.mass && r.fill == b.fill
  {
    b.(x := b.x + b.v.x, y := b.y + b.v.y)
  }

  /** `clone`: every field equal, with a velocity that is a copy. */
  function Clone(b: Body): (r: Body)
    ensures r == b
  {
    Body(b.x, b.y, b.size, b.mass, Vectors.Clone(b.v), b.fill)
  }
}
