/**
  The collision rules (`CollisionEngine`): the elastic collision of two
  bodies and the reflection of one body off the walls of the field.

  Each rule returns the updated bodies together with the number of
  collision events it produced; the caller feeds these counts to the
  collision counters.
*/
module CollisionEngine {

  import opened Wrappers
  import opened RealArith
  import opened Vectors
  import opened Things
  import opened PhysicsUtility
  import Int32

  /** The line from the first centre to the second (`rawNormal`). */
  function Offset(a: Body, b: Body): Vec {
    Subtract(Position(b), Position(a))
  }

  /** The sum of the radii, the centre distance at which two bodies touch.
      The source adds the two `int` radii in `int` arithmetic, so the sum
      wraps around before it is widened to a `double`. */
  function Reach(a: Body, b: Body): int {
    Int32.Wrap(a.size + b.size)
  }

  /** Radii whose sum passes the largest `int` wrap to a negative reach:
      such bodies never overlap, however close their centres. */
  lemma ReachWraps(a: Body, b: Body)
    requires a.size == Int32.MaxInt && b.size == 1
    ensures Reach(a, b) == Int32.MinInt && !Overlaps(a, b)
  {
  }

  function TotalMass(a: Body, b: Body): real {
    (a.mass + b.mass) as real
  }

  /** The overlap test `initDistance <= distance` of the source, with both
      sides squared: a distance is never negative, so a negative reach
      never overlaps. */
  predicate Overlaps(a: Body, b: Body) {
    Reach(a, b) >= 0 && MagnitudeSquared(Offset(a, b)) <= Sq(Reach(a, b) as real)
  }

  /** What the collision formula needs to be defined: distinct centres
      (the unit normal divides by the distance) and a non-zero total mass. */
  predicate Bounceable(a: Body, b: Body) {
    MagnitudeSquared(Offset(a, b)) > 0.0 && TotalMass(a, b) != 0.0
  }

  /** Two bodies on which the pair rule is defined: if they overlap, the
      formula must be. */
  predicate Resolvable(a: Body, b: Body) {
    Overlaps(a, b) ==> Bounceable(a, b)
  }

  /** The "already separating" guard `n1 < 0 && n2 > 0`. The normal
      components are the dot products with the offset divided by the
      (positive) distance, so their signs are those of these dot products. */
  predicate Separating(a: Body, b: Body) {
    DotProduct(Offset(a, b), a.v) < 0.0 && DotProduct(Offset(a, b), b.v) > 0.0
  }

  /** The outcome of a pair rule: both bodies and the number of events. */
  datatype Collision = Collision(first: Body, second: Body, events: nat)

  /** The velocity change along the offset, per unit of the partner's mass:
      2 (offset . (v2 - v1)) / ((m1 + m2) |offset|^2). */
  function Impulse(a: Body, b: Body): real
    requires Bounceable(a, b)
  {
    MulSign(TotalMass(a, b), MagnitudeSquared(Offset(a, b)));
    2.0 * DotProduct(Offset(a, b), Subtract(b.v, a.v)) / (TotalMass(a, b) * MagnitudeSquared(Offset(a, b)))
  }

  /**
    The elastic collision formula, without the guard: each velocity
    changes along the offset only, by the partner's mass times the
    impulse, in opposite directions. Only the velocities change.
  */
  function Bounce(a: Body, b: Body): (r: Collision)
    requires Bounceable(a, b)
    ensures r.events == 1
    ensures r.first == WithVelocity(a, r.first.v) && r.second == WithVelocity(b, r.second.v)
  {
    var d := Offset(a, b);
    var lambda := Impulse(a, b);
    Collision(WithVelocity(a, Add(a.v, ScalarMultiply(d, (b.mass as real) * lambda))),
              WithVelocity(b, Add(b.v, ScalarMultiply(d, -((a.mass as real) * lambda)))),
              1)
  }

  /**
    The collision formula conserves momentum and kinetic energy, reverses
    the relative velocity along the offset and keeps each velocity's
    component along the normal of the offset (the tangential component).
  */
  lemma BounceConserves(a: Body, b: Body)
    requires Bounceable(a, b)
    ensures var r := Bounce(a, b);
            && Add(Momentum(r.first), Momentum(r.second)) == Add(Momentum(a), Momentum(b))
            && Energy(r.first) + Energy(r.second) == Energy(a) + Energy(b)
            && DotProduct(Offset(a, b), Subtract(r.second.v, r.first.v)) == -DotProduct(Offset(a, b), Subtract(b.v, a.v))
            && DotProduct(Normal(Offset(a, b)), r.first.v) == DotProduct(Normal(Offset(a, b)), a.v)
            && DotProduct(Normal(Offset(a, b)), r.second.v) == DotProduct(Normal(Offset(a, b)), b.v)
  {
    var r := Bounce(a, b);
    BounceVelocities(a, b);
    ImpulseEquation(a, b);
    BounceFacts(a, b, Impulse(a, b), r.first.v, r.second.v);
  }

  lemma BounceVelocities(a: Body, b: Body)
    requires Bounceable(a, b)
    ensures Bounce(a, b).first.v == Add(a.v, ScalarMultiply(Offset(a, b), (b.mass as real) * Impulse(a, b)))
    ensures Bounce(a, b).second.v == Add(b.v, ScalarMultiply(Offset(a, b), -((a.mass as real) * Impulse(a, b))))
  {
  }

  lemma BounceFacts(a: Body, b: Body, lambda: real, v1: Vec, v2: Vec)
    requires lambda * (TotalMass(a, b) * MagnitudeSquared(Offset(a, b))) == 2.0 * DotProduct(Offset(a, b), Subtract(b.v, a.v))
    requires v1 == Add(a.v, ScalarMultiply(Offset(a, b), (b.mass as real) * lambda))
    requires v2 == Add(b.v, ScalarMultiply(Offset(a, b), -((a.mass as real) * lambda)))
    ensures Add(Momentum(WithVelocity(a, v1)), Momentum(WithVelocity(b, v2))) == Add(Momentum(a), Momentum(b))
    ensures Energy(WithVelocity(a, v1)) + Energy(WithVelocity(b, v2)) == Energy(a) + Energy(b)
    ensures DotProduct(Offset(a, b), Subtract(v2, v1)) == -DotProduct(Offset(a, b), Subtract(b.v, a.v))
    ensures DotProduct(Normal(Offset(a, b)), v1) == DotProduct(Normal(Offset(a, b)), a.v)
    ensures DotProduct(Normal(Offset(a, b)), v2) == DotProduct(Normal(Offset(a, b)), b.v)
  {
    var d := Offset(a, b);
    var m1, m2 := a.mass as real, b.mass as real;
    BounceMomentum(a, b, lambda, v1, v2);
    BounceEnergy(a, b, lambda, v1, v2);
    BounceReversal(a, b, lambda, v1, v2);
    TangentKept(d, a.v, m2 * lambda, v1);
    TangentKept(d, b.v, -(m1 * lambda), v2);
  }

  lemma BounceMomentum(a: Body, b: Body, lambda: real, v1: Vec, v2: Vec)
    requires v1 == Add(a.v, ScalarMultiply(Offset(a, b), (b.mass as real) * lambda))
    requires v2 == Add(b.v, ScalarMultiply(Offset(a, b), -((a.mass as real) * lambda)))
    ensures Add(Momentum(WithVelocity(a, v1)), Momentum(WithVelocity(b, v2))) == Add(Momentum(a), Momentum(b))
  {
    MomentumExchange(a.mass as real, b.mass as real, lambda, Offset(a, b), a.v, b.v, v1, v2);
  }

  lemma BounceEnergy(a: Body, b: Body, lambda: real, v1: Vec, v2: Vec)
    requires lambda * (TotalMass(a, b) * MagnitudeSquared(Offset(a, b))) == 2.0 * DotProduct(Offset(a, b), Subtract(b.v, a.v))
    requires v1 == Add(a.v, ScalarMultiply(Offset(a, b), (b.mass as real) * lambda))
    requires v2 == Add(b.v, ScalarMultiply(Offset(a, b), -((a.mass as real) * lambda)))
    ensures Energy(WithVelocity(a, v1)) + Energy(WithVelocity(b, v2)) == Energy(a) + Energy(b)
  {
    var d := Offset(a, b);
    var m1, m2 := a.mass as real, b.mass as real;
    DotSubtract(d, b.v, a.v);
    EnergyAlong(m1, m2, TotalMass(a, b), lambda, DotProduct(d, Subtract(b.v, a.v)), m2 * lambda, -(m1 * lambda), d, a.v, b.v, v1, v2);
  }

  lemma BounceReversal(a: Body, b: Body, lambda: real, v1: Vec, v2: Vec)
    requires lambda * (TotalMass(a, b) * MagnitudeSquared(Offset(a, b))) == 2.0 * DotProduct(Offset(a, b), Subtract(b.v, a.v))
    requires v1 == Add(a.v, ScalarMultiply(Offset(a, b), (b.mass as real) * lambda))
    requires v2 == Add(b.v, ScalarMultiply(Offset(a, b), -((a.mass as real) * lambda)))
    ensures DotProduct(Offset(a, b), Subtract(v2, v1)) == -DotProduct(Offset(a, b), Subtract(b.v, a.v))
  {
    var d := Offset(a, b);
    var m1, m2 := a.mass as real, b.mass as real;
    DotSubtract(d, b.v, a.v);
    ReversalAlong(m1, m2, TotalMass(a, b), lambda, DotProduct(d, Subtract(b.v, a.v)), m2 * lambda, -(m1 * lambda), d, a.v, b.v, v1, v2);
  }

  /** Adding k2 d and k1 d in proportion -m1 : m2 keeps the total momentum. */
  lemma MomentumExchange(m1: real, m2: real, lambda: real, d: Vec, u1: Vec, u2: Vec, v1: Vec, v2: Vec)
    requires v1 == Add(u1, ScalarMultiply(d, m2 * lambda)) && v2 == Add(u2, ScalarMultiply(d, -(m1 * lambda)))
    ensures Add(ScalarMultiply(v1, m1), ScalarMultiply(v2, m2)) == Add(ScalarMultiply(u1, m1), ScalarMultiply(u2, m2))
  {
    MomentumScalar(m1, m2, lambda, d.x, u1.x, u2.x, v1.x, v2.x);
    MomentumScalar(m1, m2, lambda, d.y, u1.y, u2.y, v1.y, v2.y);
  }

  lemma MomentumScalar(m1: real, m2: real, lambda: real, d: real, u1: real, u2: real, v1: real, v2: real)
    requires v1 == u1 + d * (m2 * lambda) && v2 == u2 + d * -(m1 * lambda)
    ensures v1 * m1 + v2 * m2 == u1 * m1 + u2 * m2
  {
    assert d * (m2 * lambda) * m1 == d * (m1 * lambda) * m2;
  }

  /** A change along `d` leaves the component along the normal of `d` alone. */
  lemma TangentKept(d: Vec, u: Vec, k: real, v: Vec)
    requires v == Add(u, ScalarMultiply(d, k))
    ensures DotProduct(Normal(d), v) == DotProduct(Normal(d), u)
  {
  }

  /**
    The exchange along the offset `d` in vector form: adding k1 d and k2 d
    to the two velocities, with k1 = m2 lambda and k2 = -m1 lambda, where
    lambda solves the impulse equation, keeps m1|v1|^2 + m2|v2|^2 ...
  */
  lemma EnergyAlong(m1: real, m2: real, t: real, lambda: real, e: real, k1: real, k2: real, d: Vec, u1: Vec, u2: Vec, v1: Vec, v2: Vec)
    requires t == m1 + m2 && lambda * (t * MagnitudeSquared(d)) == 2.0 * e && e == DotProduct(d, u2) - DotProduct(d, u1)
    requires k1 == m2 * lambda && k2 == -(m1 * lambda)
    requires v1 == Add(u1, ScalarMultiply(d, k1)) && v2 == Add(u2, ScalarMultiply(d, k2))
    ensures m1 * MagnitudeSquared(v1) + m2 * MagnitudeSquared(v2) == m1 * MagnitudeSquared(u1) + m2 * MagnitudeSquared(u2)
  {
    ExpandAlong(u1, d, k1);
    ExpandAlong(u2, d, k2);
    EnergyScalar(m1, m2, t, lambda, k1, k2, MagnitudeSquared(d), MagnitudeSquared(u1), MagnitudeSquared(u2),
      DotProduct(d, u1), DotProduct(d, u2), MagnitudeSquared(v1), MagnitudeSquared(v2));
  }

  /** ... and reverses d . (v2 - v1). */
  lemma ReversalAlong(m1: real, m2: real, t: real, lambda: real, e: real, k1: real, k2: real, d: Vec, u1: Vec, u2: Vec, v1: Vec, v2: Vec)
    requires t == m1 + m2 && lambda * (t * MagnitudeSquared(d)) == 2.0 * e && e == DotProduct(d, u2) - DotProduct(d, u1)
    requires k1 == m2 * lambda && k2 == -(m1 * lambda)
    requires v1 == Add(u1, ScalarMultiply(d, k1)) && v2 == Add(u2, ScalarMultiply(d, k2))
    ensures DotProduct(d, Subtract(v2, v1)) == -DotProduct(d, Subtract(u2, u1))
  {
    DotSubtract(d, v2, v1);
    DotSubtract(d, u2, u1);
    DotAlongScaled(d, u1, k1);
    DotAlongScaled(d, u2, k2);
    ReversalScalar(m1, m2, t, lambda, k1, k2, MagnitudeSquared(d), DotProduct(d, u1), DotProduct(d, u2), DotProduct(d, v1), DotProduct(d, v2));
  }

  /**
    The pair rule for two distinct bodies (`computePossibleCollision`
    after the identity check). Bodies that do not overlap, or whose
    velocities already point apart, are left alone and raise no event;
    otherwise the collision formula applies and raises exactly one event.
    Only the velocities can change.
  */
  function Resolve(a: Body, b: Body): (r: Collision)
    requires Resolvable(a, b)
    ensures r.events == 1 <==> Overlaps(a, b) && !Separating(a, b)
    ensures r.events == 0 <==> !Overlaps(a, b) || Separating(a, b)
    ensures r.events == 0 ==> r.first == a && r.second == b
    ensures r.first == WithVelocity(a, r.first.v) && r.second == WithVelocity(b, r.second.v)
  {
    if !Overlaps(a, b) || Separating(a, b) then Collision(a, b, 0) else Bounce(a, b)
  }

  /** The pair rule conserves momentum and kinetic energy. */
  lemma ResolveConserves(a: Body, b: Body)
    requires Resolvable(a, b)
    ensures Add(Momentum(Resolve(a, b).first), Momentum(Resolve(a, b).second)) == Add(Momentum(a), Momentum(b))
    ensures Energy(Resolve(a, b).first) + Energy(Resolve(a, b).second) == Energy(a) + Energy(b)
  {
    if Overlaps(a, b) && !Separating(a, b) {
      BounceConserves(a, b);
    }
  }

  /** Swapping the two bodies swaps the outcome: the overlap test, the
      guard and the impulse are all symmetric. */
  lemma ResolveSymmetric(a: Body, b: Body)
    requires Resolvable(a, b)
    ensures Resolvable(b, a)
    ensures Resolve(b, a) == Collision(Resolve(a, b).second, Resolve(a, b).first, Resolve(a, b).events)
  {
    var d := Offset(a, b);
    assert Offset(b, a) == Invert(d);
    assert MagnitudeSquared(Offset(b, a)) == MagnitudeSquared(d);
    assert Reach(b, a) == Reach(a, b);
    assert DotProduct(Offset(b, a), b.v) == -DotProduct(d, b.v);
    assert DotProduct(Offset(b, a), a.v) == -DotProduct(d, a.v);
    if Overlaps(a, b) && !Separating(a, b) {
      assert DotProduct(Offset(b, a), Subtract(a.v, b.v)) == DotProduct(d, Subtract(b.v, a.v));
      assert TotalMass(b, a) == TotalMass(a, b);
      assert Impulse(b, a) == Impulse(a, b);
      ScaleInverted(d, (a.mass as real) * Impulse(a, b));
      ScaleInverted(d, (b.mass as real) * Impulse(a, b));
      assert Bounce(b, a).first.v == Bounce(a, b).second.v;
      assert Bounce(b, a).second.v == Bounce(a, b).first.v;
    }
  }

  /** With equal masses the normal components of the two velocities are
      exchanged. */
  lemma BounceSwapsEqualMasses(a: Body, b: Body)
    requires Bounceable(a, b) && a.mass == b.mass
    ensures DotProduct(Offset(a, b), Bounce(a, b).first.v) == DotProduct(Offset(a, b), b.v)
    ensures DotProduct(Offset(a, b), Bounce(a, b).second.v) == DotProduct(Offset(a, b), a.v)
  {
    var d := Offset(a, b);
    var m := a.mass as real;
    var lambda := Impulse(a, b);
    ImpulseEquation(a, b);
    DotSubtract(d, b.v, a.v);
    DotAlongScaled(d, a.v, m * lambda);
    DotAlongScaled(d, b.v, -(m * lambda));
    EqualMassScalar(m, lambda, MagnitudeSquared(d), DotProduct(d, a.v), DotProduct(d, b.v));
  }

  lemma EqualMassScalar(m: real, lambda: real, q: real, d1: real, d2: real)
    requires lambda * ((m + m) * q) == 2.0 * (d2 - d1)
    ensures d1 + (m * lambda) * q == d2
    ensures d2 + -(m * lambda) * q == d1
  {
  }

  /** The collision formula undoes itself: the bodies do not move, the
      impulse of the result is the opposite one, and applying it again
      restores both velocities. */
  lemma BounceInvolution(a: Body, b: Body)
    requires Bounceable(a, b)
    ensures Bounceable(Bounce(a, b).first, Bounce(a, b).second)
    ensures Bounce(Bounce(a, b).first, Bounce(a, b).second) == Collision(a, b, 1)
  {
    BounceUndoesFirst(a, b);
    BounceUndoesSecond(a, b);
  }

  lemma BounceUndoesFirst(a: Body, b: Body)
    requires Bounceable(a, b)
    ensures Bounceable(Bounce(a, b).first, Bounce(a, b).second)
    ensures Bounce(Bounce(a, b).first, Bounce(a, b).second).first == a
  {
    var r := Bounce(a, b);
    BounceReversesImpulse(a, b);
    BounceVelocities(a, b);
    BounceVelocities(r.first, r.second);
    var lambda := Impulse(a, b);
    UndoAlong(a.v, Offset(a, b), (b.mass as real) * lambda, (b.mass as real) * -lambda);
    SameBodyWithVelocity(Bounce(r.first, r.second).first, a);
  }

  lemma BounceUndoesSecond(a: Body, b: Body)
    requires Bounceable(a, b)
    ensures Bounceable(Bounce(a, b).first, Bounce(a, b).second)
    ensures Bounce(Bounce(a, b).first, Bounce(a, b).second).second == b
  {
    var r := Bounce(a, b);
    BounceReversesImpulse(a, b);
    BounceVelocities(a, b);
    BounceVelocities(r.first, r.second);
    var lambda := Impulse(a, b);
    UndoAlong(b.v, Offset(a, b), -((a.mass as real) * lambda), -((a.mass as real) * -lambda));
    SameBodyWithVelocity(Bounce(r.first, r.second).second, b);
  }

  /** After a bounce the bodies are where they were and the impulse
      between them is the opposite one. */
  lemma BounceReversesImpulse(a: Body, b: Body)
    requires Bounceable(a, b)
    ensures Offset(Bounce(a, b).first, Bounce(a, b).second) == Offset(a, b)
    ensures Bounceable(Bounce(a, b).first, Bounce(a, b).second)
    ensures Impulse(Bounce(a, b).first, Bounce(a, b).second) == -Impulse(a, b)
  {
    var r := Bounce(a, b);
    var d := Offset(a, b);
    assert Offset(r.first, r.second) == d;
    assert TotalMass(r.first, r.second) == TotalMass(a, b);
    var x := DotProduct(d, Subtract(b.v, a.v));
    var y := TotalMass(a, b) * MagnitudeSquared(d);
    assert DotProduct(d, Subtract(r.second.v, r.first.v)) == -x;
    NegateQuotient(x, y);
  }

  /**
    The guard is why the whole rule, unlike the bare formula, is not an
    involution: two overlapping bodies of equal mass that move towards
    each other bounce once, and a second application of the rule finds
    them separating and leaves them alone, so the original velocities
    are not restored.
  */
  lemma ResolveTwiceStops(a: Body, b: Body)
    requires Resolvable(a, b) && Overlaps(a, b) && a.mass == b.mass
    requires DotProduct(Offset(a, b), a.v) > 0.0 && DotProduct(Offset(a, b), b.v) < 0.0
    ensures Resolve(a, b).events == 1
    ensures Resolvable(Resolve(a, b).first, Resolve(a, b).second)
    ensures Resolve(Resolve(a, b).first, Resolve(a, b).second)
         == Collision(Resolve(a, b).first, Resolve(a, b).second, 0)
    ensures Resolve(a, b).first.v != a.v
  {
    var r := Resolve(a, b);
    BounceSwapsEqualMasses(a, b);
    assert Offset(r.first, r.second) == Offset(a, b);
    assert Separating(r.first, r.second);
  }

  /**
    The guard tests the sign of each body's own normal speed, not the
    sign of their relative speed, so it misses a pair that moves apart
    while both bodies move the same way along the normal (a rear-end
    collision). `move` visits every ordered pair, so the pair rule runs
    again, with the bodies swapped, on the bounced pair while they still
    overlap; when the guard misses it, the formula undoes itself and the
    original velocities come back, with two events counted.
  */
  lemma SecondPassUndoes(a: Body, b: Body)
    requires Resolvable(a, b) && Overlaps(a, b) && !Separating(a, b)
    requires !Separating(Resolve(a, b).second, Resolve(a, b).first)
    ensures Resolve(a, b).events == 1
    ensures Resolvable(Resolve(a, b).second, Resolve(a, b).first)
    ensures Resolve(Resolve(a, b).second, Resolve(a, b).first) == Collision(b, a, 1)
  {
    var r := Resolve(a, b);
    BounceInvolution(a, b);
    assert Offset(r.first, r.second) == Offset(a, b);
    assert Reach(r.first, r.second) == Reach(a, b);
    ResolveSymmetric(r.first, r.second);
    assert DotProduct(Offset(r.second, r.first), r.second.v) == -DotProduct(Offset(r.first, r.second), r.second.v);
    assert DotProduct(Offset(r.second, r.first), r.first.v) == -DotProduct(Offset(r.first, r.second), r.first.v);
    assert !Separating(r.first, r.second);
  }

  /** Two overlapping bodies of equal mass that both move forward along
      the offset (the second one at least as fast as the first, or not)
      are bounced by the first pass, and the second pass restores their
      velocities. */
  lemma RearEndUndone(a: Body, b: Body)
    requires Bounceable(a, b) && Overlaps(a, b) && a.mass == b.mass
    requires DotProduct(Offset(a, b), a.v) >= 0.0 && DotProduct(Offset(a, b), b.v) >= 0.0
    ensures Resolve(a, b).events == 1
    ensures Resolvable(Resolve(a, b).second, Resolve(a, b).first)
    ensures Resolve(Resolve(a, b).second, Resolve(a, b).first) == Collision(b, a, 1)
  {
    var r := Resolve(a, b);
    BounceSwapsEqualMasses(a, b);
    var d := Offset(a, b);
    assert Offset(r.first, r.second) == d;
    assert DotProduct(Offset(r.second, r.first), r.second.v) == -DotProduct(d, r.second.v);
    assert DotProduct(Offset(r.second, r.first), r.first.v) == -DotProduct(d, r.first.v);
    SecondPassUndoes(a, b);
  }

  /** A rear-end collision of two gas particles on any horizontal line,
      the first at x = 0 moving at 3 and the second at x = 10 moving at 1:
      the second pass gives back the velocities the bodies had before the
      first. */
  lemma RearEndExample(a: Body, b: Body)
    requires a.x == 0.0 && a.y == b.y && a.size == 5 && a.mass == 1 && a.v == Vec(3.0, 0.0)
    requires b.x == 10.0 && b.size == 5 && b.mass == 1 && b.v == Vec(1.0, 0.0)
    ensures Resolvable(a, b) && Resolve(a, b).events == 1
    ensures Resolvable(Resolve(a, b).second, Resolve(a, b).first)
    ensures Resolve(Resolve(a, b).second, Resolve(a, b).first) == Collision(b, a, 1)
  {
    var d := Offset(a, b);
    assert d == Vec(10.0, 0.0);
    AxisSquare(d, 10.0);
    assert Reach(a, b) as real == 10.0;
    assert DotProduct(d, a.v) == 30.0 && DotProduct(d, b.v) == 10.0;
    RearEndUndone(a, b);
  }

  /**
    The particles of `RearEndExample` in a tick of the source, with the
    guard as written. `move` first displaces the first particle by its
    velocity, to 3, and walks the list: it still touches the second, and
    the rule swaps their velocities. Both lie on any one horizontal line.
  */
  lemma RearEndFirstBounce(a: Body, b: Body)
    requires a.x == 3.0 && a.y == b.y && a.size == 5 && a.mass == 1 && a.v == Vec(3.0, 0.0)
    requires b.x == 10.0 && b.size == 5 && b.mass == 1 && b.v == Vec(1.0, 0.0)
    ensures Resolvable(a, b) && Resolve(a, b).events == 1
    ensures Resolve(a, b).first.x == 3.0 && Resolve(a, b).first.y == a.y
    ensures Resolve(a, b).first.size == 5 && Resolve(a, b).first.mass == 1
    ensures Resolve(a, b).first.v == Vec(1.0, 0.0)
    ensures Resolve(a, b).second.x == 10.0 && Resolve(a, b).second.y == b.y
    ensures Resolve(a, b).second.size == 5 && Resolve(a, b).second.mass == 1
    ensures Resolve(a, b).second.v == Vec(3.0, 0.0)
  {
    var d := Offset(a, b);
    assert d == Vec(7.0, 0.0);
    AxisSquare(d, 7.0);
    assert Reach(a, b) as real == 10.0;
    AxisSwap(a, b);
  }

  /**
    The same tick, continued: the second particle is displaced by its new
    velocity, to 13, and walks the list. At distance 10 it still touches
    the first, whose velocity (1) it now has; the rule in the other order
    does not see them as separating and swaps the velocities back, a
    second event. Both particles end the tick with the velocities they
    began it with.
  */
  lemma RearEndSecondBounce(b: Body, a: Body)
    requires b.x == 13.0 && b.y == a.y && b.size == 5 && b.mass == 1 && b.v == Vec(3.0, 0.0)
    requires a.x == 3.0 && a.size == 5 && a.mass == 1 && a.v == Vec(1.0, 0.0)
    ensures Resolvable(b, a) && Resolve(b, a).events == 1
    ensures Resolve(b, a).first.v == Vec(1.0, 0.0)
    ensures Resolve(b, a).second.v == Vec(3.0, 0.0)
  {
    var d := Offset(a, b);
    assert d == Vec(10.0, 0.0);
    AxisSquare(d, 10.0);
    assert Reach(a, b) as real == 10.0;
    AxisSwap(a, b);
    ResolveSymmetric(a, b);
  }

  /** Two overlapping bodies of equal mass on a horizontal line that do
      not move apart exchange their horizontal velocities and keep their
      vertical ones. */
  lemma AxisSwap(a: Body, b: Body)
    requires a.y == b.y && a.x != b.x && a.mass == b.mass && a.mass != 0
    requires Overlaps(a, b) && !Separating(a, b)
    ensures Resolvable(a, b) && Resolve(a, b).events == 1
    ensures Resolve(a, b).first.v == Vec(b.v.x, a.v.y) && Resolve(a, b).second.v == Vec(a.v.x, b.v.y)
  {
    var d := Offset(a, b);
    var dx := b.x - a.x;
    assert d == Vec(dx, 0.0);
    AxisSquare(d, dx);
    SquareNonNegative(dx);
    var r := Bounce(a, b);
    BounceSwapsEqualMasses(a, b);
    BounceConserves(a, b);
    assert Normal(d) == Vec(0.0, dx);
    assert Mul(r.first.v.x - b.v.x, dx) == 0.0;
    CancelFactor(r.first.v.x - b.v.x, dx);
    assert Mul(r.second.v.x - a.v.x, dx) == 0.0;
    CancelFactor(r.second.v.x - a.v.x, dx);
    assert Mul(r.first.v.y - a.v.y, dx) == 0.0;
    CancelFactor(r.first.v.y - a.v.y, dx);
    assert Mul(r.second.v.y - b.v.y, dx) == 0.0;
    CancelFactor(r.second.v.y - b.v.y, dx);
  }

  lemma AxisSquare(d: Vec, x: real)
    requires d == Vec(x, 0.0)
    ensures MagnitudeSquared(d) == Sq(x) && Sq(x) == x * x
  {
  }

  /** The bodies approach each other along the line of centres: their
      relative velocity has a negative component along the offset. */
  predicate Approaching(a: Body, b: Body) {
    DotProduct(Offset(a, b), Subtract(b.v, a.v)) < 0.0
  }

  /** Whether two bodies approach does not depend on their order. */
  lemma ApproachingSymmetric(a: Body, b: Body)
    ensures Approaching(b, a) <==> Approaching(a, b)
    ensures Overlaps(b, a) <==> Overlaps(a, b)
    ensures Resolvable(a, b) ==> Resolvable(b, a)
  {
    var d := Offset(a, b);
    assert Offset(b, a) == Invert(d);
    assert MagnitudeSquared(Offset(b, a)) == MagnitudeSquared(d);
    assert Reach(b, a) == Reach(a, b);
    assert TotalMass(b, a) == TotalMass(a, b);
    assert DotProduct(Offset(b, a), Subtract(a.v, b.v)) == DotProduct(d, Subtract(b.v, a.v));
  }

  /**
    The pair rule with the guard the source evidently intends: overlapping
    bodies bounce only while they approach each other. Only the
    velocities can change.
  */
  function ResolveApproaching(a: Body, b: Body): (r: Collision)
    requires Resolvable(a, b)
    ensures r.events == 1 <==> Overlaps(a, b) && Approaching(a, b)
    ensures r.events == 0 ==> r.first == a && r.second == b
    ensures r.events <= 1
    ensures r.first == WithVelocity(a, r.first.v) && r.second == WithVelocity(b, r.second.v)
  {
    if Overlaps(a, b) && Approaching(a, b) then Bounce(a, b) else Collision(a, b, 0)
  }

  /** The corrected rule conserves momentum and kinetic energy. */
  lemma ResolveApproachingConserves(a: Body, b: Body)
    requires Resolvable(a, b)
    ensures Add(Momentum(ResolveApproaching(a, b).first), Momentum(ResolveApproaching(a, b).second)) == Add(Momentum(a), Momentum(b))
    ensures Energy(ResolveApproaching(a, b).first) + Energy(ResolveApproaching(a, b).second) == Energy(a) + Energy(b)
  {
    if Overlaps(a, b) && Approaching(a, b) {
      BounceConserves(a, b);
    }
  }

  /** With the corrected guard a pair is resolved at most once: evaluating
      it again in the other order, as the next body's `move` does, leaves
      the outcome alone and raises no event. */
  lemma ApproachingResolvesOnce(a: Body, b: Body)
    requires Resolvable(a, b)
    ensures Resolvable(ResolveApproaching(a, b).second, ResolveApproaching(a, b).first)
    ensures ResolveApproaching(ResolveApproaching(a, b).second, ResolveApproaching(a, b).first)
         == Collision(ResolveApproaching(a, b).second, ResolveApproaching(a, b).first, 0)
  {
    var r := ResolveApproaching(a, b);
    if r.events == 1 {
      BounceConserves(a, b);
      assert Offset(r.first, r.second) == Offset(a, b);
      assert !Approaching(r.first, r.second);
      ApproachingSymmetric(r.first, r.second);
    } else {
      ApproachingSymmetric(a, b);
    }
  }

  /** Two bodies at rest that touch: the guard as written lets the formula
      run, which changes nothing but raises an event, on every pass; the
      corrected guard raises none. */
  lemma RestingContact(a: Body, b: Body)
    requires Resolvable(a, b) && Overlaps(a, b) && a.v == Vec(0.0, 0.0) && b.v == Vec(0.0, 0.0)
    ensures PairRule(AsWritten, a, b) == Collision(a, b, 1)
    ensures PairRule(Corrected, a, b) == Collision(a, b, 0)
  {
    var d := Offset(a, b);
    assert DotProduct(d, a.v) == 0.0 && DotProduct(d, b.v) == 0.0;
    assert !Separating(a, b) && !Approaching(a, b);
    var lambda := Impulse(a, b);
    assert DotProduct(d, Subtract(b.v, a.v)) == 0.0;
    assert lambda == 0.0;
    BounceWithoutImpulse(a, b);
  }

  /** With a zero impulse the collision formula changes nothing, yet still
      counts an event. */
  lemma BounceWithoutImpulse(a: Body, b: Body)
    requires Bounceable(a, b) && Impulse(a, b) == 0.0
    ensures Bounce(a, b) == Collision(a, b, 1)
  {
    BounceKeepsFirst(a, b);
    BounceKeepsSecond(a, b);
  }

  lemma BounceKeepsFirst(a: Body, b: Body)
    requires Bounceable(a, b) && Impulse(a, b) == 0.0
    ensures Bounce(a, b).first == a
  {
    BounceVelocities(a, b);
    VelocityKept(a.v, Offset(a, b), b.mass as real, Impulse(a, b), Bounce(a, b).first.v);
    SameBodyWithVelocity(Bounce(a, b).first, a);
  }

  lemma BounceKeepsSecond(a: Body, b: Body)
    requires Bounceable(a, b) && Impulse(a, b) == 0.0
    ensures Bounce(a, b).second == b
  {
    BounceVelocities(a, b);
    VelocityKept(b.v, Offset(a, b), a.mass as real, Impulse(a, b), Bounce(a, b).second.v);
    SameBodyWithVelocity(Bounce(a, b).second, b);
  }

  /** With no impulse the velocity update of either body changes nothing. */
  lemma VelocityKept(v: Vec, d: Vec, m: real, lambda: real, w: Vec)
    requires lambda == 0.0
    requires w == Add(v, ScalarMultiply(d, m * lambda)) || w == Add(v, ScalarMultiply(d, -(m * lambda)))
    ensures w == v
  {
  }

  /** A body that differs from another at most in velocity, and not there,
      is that body. */
  lemma SameBodyWithVelocity(c: Body, a: Body)
    requires c == WithVelocity(a, c.v) && c.v == a.v
    ensures c == a
  {
  }

  /** `dist` is the centre distance `rawNormal.getMagnitude()`: the
      non-negative root of the squared length of the offset. */
  predicate IsDistance(a: Body, b: Body, dist: real) {
    dist >= 0.0 && Sq(dist) == MagnitudeSquared(Offset(a, b))
  }

  /** When the bodies overlap, the unit normal needs a positive distance
      and the one-dimensional formula a non-zero total mass. */
  predicate LiteralDefined(a: Body, b: Body, dist: real) {
    dist <= Reach(a, b) as real ==> dist > 0.0 && TotalMass(a, b) != 0.0
  }

  /** The unit vector from the first centre towards the second (`normal`). */
  function UnitNormal(a: Body, b: Body, dist: real): (u: Vec)
    requires IsDistance(a, b, dist) && dist > 0.0
    ensures MagnitudeSquared(u) == 1.0
    ensures ScalarMultiply(u, dist) == Offset(a, b)
  {
    ToUnitVector(Offset(a, b), dist)
  }

  /** The one-dimensional elastic collision: the final normal speed of a
      body with mass `m` and normal speed `n` hitting one with mass `mo`
      and normal speed `no` (`n1f` and `n2f`). */
  function FinalSpeed(m: real, n: real, mo: real, no: real): (nf: real)
    requires m + mo != 0.0
    ensures nf == 2.0 * CentreSpeed(m, n, mo, no) - n
  {
    ReflectAboutCentre(m, n, mo, no);
    (m * n + mo * (2.0 * no - n)) / (m + mo)
  }

  /** The speed of the centre of mass of a body with mass `m` and speed
      `n` and one with mass `mo` and speed `no`. */
  function CentreSpeed(m: real, n: real, mo: real, no: real): real
    requires m + mo != 0.0
  {
    (m * n + mo * no) / (m + mo)
  }

  lemma CentreSpeedSymmetric(m: real, n: real, mo: real, no: real)
    requires m + mo != 0.0
    ensures CentreSpeed(mo, no, m, n) == CentreSpeed(m, n, mo, no)
  {
    assert mo * no + m * n == m * n + mo * no;
  }

  lemma ReflectAboutCentre(m: real, n: real, mo: real, no: real)
    requires m + mo != 0.0
    ensures (m * n + mo * (2.0 * no - n)) / (m + mo) == 2.0 * ((m * n + mo * no) / (m + mo)) - n
  {
    assert m * n + mo * (2.0 * no - n) == 2.0 * (m * n + mo * no) - (m + mo) * n;
  }

  /**
    The pair rule as the source computes it (`computePossibleCollision`
    for two distinct bodies): the velocities are split into components
    along the unit normal and along the tangent; unless the guard
    `n1 < 0 && n2 > 0` holds, the normal components follow the
    one-dimensional elastic collision and the tangential ones are kept.
    The distance, a square root in the source, is passed in.
  */
  function ComputePossibleCollision(a: Body, b: Body, dist: real): (r: Collision)
    requires IsDistance(a, b, dist) && LiteralDefined(a, b, dist)
    ensures r.first == WithVelocity(a, r.first.v) && r.second == WithVelocity(b, r.second.v)
    ensures r.events <= 1
    ensures r.events == 0 ==> r.first == a && r.second == b
    ensures r.events == 1 <==> (dist <= Reach(a, b) as real
                                 && !(DotProduct(UnitNormal(a, b, dist), a.v) < 0.0
                                      && DotProduct(UnitNormal(a, b, dist), b.v) > 0.0))
  {
    var distance := Reach(a, b) as real;
    if dist <= distance then
      var normal := UnitNormal(a, b, dist);
      var collision := Normal(normal);
      var n1 := DotProduct(normal, a.v);
      var n2 := DotProduct(normal, b.v);
      var c1 := DotProduct(collision, a.v);
      var c2 := DotProduct(collision, b.v);
      var m1 := a.mass as real;
      var m2 := b.mass as real;
      if n1 < 0.0 && n2 > 0.0 then
        Collision(a, b, 0)
      else
        var n1f := FinalSpeed(m1, n1, m2, n2);
        var n2f := FinalSpeed(m2, n2, m1, n1);
        var v1f := Add(ScalarMultiply(normal, n1f), ScalarMultiply(collision, c1));
        var v2f := Add(ScalarMultiply(normal, n2f), ScalarMultiply(collision, c2));
        Collision(WithVelocity(a, v1f), WithVelocity(b, v2f), 1)
    else
      Collision(a, b, 0)
  }

  /**
    When the literal rule raises an event, each body's normal speed becomes
    2V - n, where V = (m1 n1 + m2 n2) / (m1 + m2) is the speed of the
    centre of mass along the normal, and each tangential speed is kept.
    With equal masses the two normal speeds are exchanged.
  */
  lemma LiteralComponents(a: Body, b: Body, dist: real)
    requires IsDistance(a, b, dist) && LiteralDefined(a, b, dist)
    requires ComputePossibleCollision(a, b, dist).events == 1
    ensures dist > 0.0 && TotalMass(a, b) != 0.0
    ensures DotProduct(UnitNormal(a, b, dist), ComputePossibleCollision(a, b, dist).first.v)
         == 2.0 * CentreSpeed(a.mass as real, DotProduct(UnitNormal(a, b, dist), a.v), b.mass as real, DotProduct(UnitNormal(a, b, dist), b.v)) - DotProduct(UnitNormal(a, b, dist), a.v)
    ensures DotProduct(UnitNormal(a, b, dist), ComputePossibleCollision(a, b, dist).second.v)
         == 2.0 * CentreSpeed(a.mass as real, DotProduct(UnitNormal(a, b, dist), a.v), b.mass as real, DotProduct(UnitNormal(a, b, dist), b.v)) - DotProduct(UnitNormal(a, b, dist), b.v)
    ensures DotProduct(Normal(UnitNormal(a, b, dist)), ComputePossibleCollision(a, b, dist).first.v)
         == DotProduct(Normal(UnitNormal(a, b, dist)), a.v)
    ensures DotProduct(Normal(UnitNormal(a, b, dist)), ComputePossibleCollision(a, b, dist).second.v)
         == DotProduct(Normal(UnitNormal(a, b, dist)), b.v)
    ensures a.mass == b.mass ==>
              && DotProduct(UnitNormal(a, b, dist), ComputePossibleCollision(a, b, dist).first.v) == DotProduct(UnitNormal(a, b, dist), b.v)
              && DotProduct(UnitNormal(a, b, dist), ComputePossibleCollision(a, b, dist).second.v) == DotProduct(UnitNormal(a, b, dist), a.v)
  {
    var u := UnitNormal(a, b, dist);
    var c := Normal(u);
    var m1, m2 := a.mass as real, b.mass as real;
    var n1, n2 := DotProduct(u, a.v), DotProduct(u, b.v);
    var n1f, n2f := FinalSpeed(m1, n1, m2, n2), FinalSpeed(m2, n2, m1, n1);
    var r := ComputePossibleCollision(a, b, dist);
    assert r.first.v == Add(ScalarMultiply(u, n1f), ScalarMultiply(c, DotProduct(c, a.v)));
    assert r.second.v == Add(ScalarMultiply(u, n2f), ScalarMultiply(c, DotProduct(c, b.v)));
    ProjectOnBasis(u, n1f, DotProduct(c, a.v));
    ProjectOnBasis(u, n2f, DotProduct(c, b.v));
    assert DotProduct(u, r.first.v) == n1f && DotProduct(u, r.second.v) == n2f;
    CentreSpeedSymmetric(m1, n1, m2, n2);
    if a.mass == b.mass {
      EqualMassFinalSpeeds(m1, n1, n2);
      assert n1f == FinalSpeed(m1, n1, m1, n2) && n2f == FinalSpeed(m1, n2, m1, n1);
    }
  }

  /** The coordinates of a vector in the basis of a unit vector and its normal. */
  lemma ProjectOnBasis(u: Vec, p: real, q: real)
    requires MagnitudeSquared(u) == 1.0
    ensures DotProduct(u, Add(ScalarMultiply(u, p), ScalarMultiply(Normal(u), q))) == p
    ensures DotProduct(Normal(u), Add(ScalarMultiply(u, p), ScalarMultiply(Normal(u), q))) == q
  {
    var w := Add(ScalarMultiply(u, p), ScalarMultiply(Normal(u), q));
    BasisScalar(u.x, u.y, p, q, w.x, w.y);
  }

  lemma BasisScalar(x: real, y: real, p: real, q: real, wx: real, wy: real)
    requires Sq(x) + Sq(y) == 1.0
    requires wx == x * p + (-y) * q && wy == y * p + x * q
    ensures x * wx + y * wy == p
    ensures (-y) * wx + x * wy == q
  {
    assert x * wx + y * wy == p * (Sq(x) + Sq(y));
    assert (-y) * wx + x * wy == q * (Sq(x) + Sq(y));
  }

  lemma EqualMassFinalSpeeds(m: real, n1: real, n2: real)
    requires m + m != 0.0
    ensures FinalSpeed(m, n1, m, n2) == n2 && FinalSpeed(m, n2, m, n1) == n1
  {
    assert m * n1 + m * (2.0 * n2 - n1) == (m + m) * n2;
    assert m * n2 + m * (2.0 * n1 - n2) == (m + m) * n1;
  }

  /**
    The literal rule and the square-root-free rule agree: given the true
    centre distance, the literal rule is defined exactly when `Resolve`
    is, and then both give the same bodies and the same number of events.
  */
  lemma LiteralAgreesWithResolve(a: Body, b: Body, dist: real)
    requires IsDistance(a, b, dist)
    ensures LiteralDefined(a, b, dist) <==> Resolvable(a, b)
    ensures Resolvable(a, b) ==> ComputePossibleCollision(a, b, dist) == Resolve(a, b)
  {
    var reach := Reach(a, b) as real;
    SquareMonotone(dist, reach);
    assert dist <= reach <==> Overlaps(a, b);
    SquareNonNegative(dist);
    assert dist > 0.0 <==> MagnitudeSquared(Offset(a, b)) > 0.0;
    if Overlaps(a, b) && Bounceable(a, b) {
      var u := UnitNormal(a, b, dist);
      var d := Offset(a, b);
      DotProductScales(u, dist, a.v);
      DotProductScales(u, dist, b.v);
      MulSign(dist, DotProduct(u, a.v));
      MulSign(dist, DotProduct(u, b.v));
      assert Separating(a, b) <==> DotProduct(u, a.v) < 0.0 && DotProduct(u, b.v) > 0.0;
      if !Separating(a, b) {
        LiteralVelocitiesAgree(a, b, dist, u, DotProduct(u, a.v), DotProduct(u, b.v));
      }
    }
  }

  lemma LiteralVelocitiesAgree(a: Body, b: Body, dist: real, u: Vec, n1: real, n2: real)
    requires IsDistance(a, b, dist) && dist > 0.0 && Bounceable(a, b)
    requires u == UnitNormal(a, b, dist) && n1 == DotProduct(u, a.v) && n2 == DotProduct(u, b.v)
    ensures Add(ScalarMultiply(u, FinalSpeed(a.mass as real, n1, b.mass as real, n2)),
                ScalarMultiply(Normal(u), DotProduct(Normal(u), a.v))) == Bounce(a, b).first.v
    ensures Add(ScalarMultiply(u, FinalSpeed(b.mass as real, n2, a.mass as real, n1)),
                ScalarMultiply(Normal(u), DotProduct(Normal(u), b.v))) == Bounce(a, b).second.v
  {
    FirstVelocityAgrees(a, b, dist, u, n1, n2);
    SecondVelocityAgrees(a, b, dist, u, n1, n2);
  }

  lemma FirstVelocityAgrees(a: Body, b: Body, dist: real, u: Vec, n1: real, n2: real)
    requires IsDistance(a, b, dist) && dist > 0.0 && Bounceable(a, b)
    requires MagnitudeSquared(u) == 1.0 && ScalarMultiply(u, dist) == Offset(a, b)
    requires n1 == DotProduct(u, a.v) && n2 == DotProduct(u, b.v)
    ensures Add(ScalarMultiply(u, FinalSpeed(a.mass as real, n1, b.mass as real, n2)),
                ScalarMultiply(Normal(u), DotProduct(Normal(u), a.v))) == Bounce(a, b).first.v
  {
    var m1, m2 := a.mass as real, b.mass as real;
    BounceVelocities(a, b);
    FinalSpeedGain(m1, n1, m2, n2);
    ImpulseAlongUnit(a, b, dist, u, n1, n2);
    FirstVelocityAlong(Offset(a, b), dist, u, a.v, m1, m2, n1, n2, Impulse(a, b), FinalSpeed(m1, n1, m2, n2), Bounce(a, b).first.v);
  }

  /** The first body's new velocity `v`, a change along the offset `d`,
      in the literal form along the unit normal `u`, for any impulse
      `lambda` and final normal speed `nf` that solve their equations. */
  lemma FirstVelocityAlong(d: Vec, dist: real, u: Vec, w: Vec, m1: real, m2: real, n1: real, n2: real, lambda: real, nf: real, v: Vec)
    requires dist > 0.0 && m1 + m2 != 0.0 && MagnitudeSquared(d) == Sq(dist)
    requires MagnitudeSquared(u) == 1.0 && ScalarMultiply(u, dist) == d && n1 == DotProduct(u, w)
    requires lambda * ((m1 + m2) * MagnitudeSquared(d)) == 2.0 * (dist * n2 - dist * n1)
    requires (nf - n1) * (m1 + m2) == 2.0 * m2 * (n2 - n1)
    requires v == Add(w, ScalarMultiply(d, m2 * lambda))
    ensures Add(ScalarMultiply(u, nf), ScalarMultiply(Normal(u), DotProduct(Normal(u), w))) == v
  {
    ComponentAgrees(u, d, dist, w, m1 + m2, m2, n1, n2, lambda, nf, m2 * lambda);
  }

  lemma SecondVelocityAgrees(a: Body, b: Body, dist: real, u: Vec, n1: real, n2: real)
    requires IsDistance(a, b, dist) && dist > 0.0 && Bounceable(a, b)
    requires u == UnitNormal(a, b, dist) && n1 == DotProduct(u, a.v) && n2 == DotProduct(u, b.v)
    ensures Add(ScalarMultiply(u, FinalSpeed(b.mass as real, n2, a.mass as real, n1)),
                ScalarMultiply(Normal(u), DotProduct(Normal(u), b.v))) == Bounce(a, b).second.v
  {
    var m1, m2 := a.mass as real, b.mass as real;
    BounceVelocities(a, b);
    ImpulseAlongUnit(a, b, dist, u, n1, n2);
    FinalSpeedGain(m2, n2, m1, n1);
    ComponentAgrees(u, Offset(a, b), dist, b.v, m2 + m1, m1, n2, n1, -Impulse(a, b), FinalSpeed(m2, n2, m1, n1), -(m1 * Impulse(a, b)));
  }

  /** One body's new velocity: literal form on the left, square-root-free
      form on the right. */
  lemma ComponentAgrees(u: Vec, d: Vec, dist: real, w: Vec, mass: real, mo: real, ns: real, no: real, lambda: real, nf: real, k: real)
    requires dist > 0.0 && mass != 0.0 && MagnitudeSquared(u) == 1.0
    requires ScalarMultiply(u, dist) == d && MagnitudeSquared(d) == Sq(dist)
    requires ns == DotProduct(u, w)
    requires lambda * (mass * MagnitudeSquared(d)) == 2.0 * (dist * no - dist * ns)
    requires (nf - ns) * mass == 2.0 * mo * (no - ns)
    requires k == mo * lambda
    ensures Add(ScalarMultiply(u, nf), ScalarMultiply(Normal(u), DotProduct(Normal(u), w)))
         == Add(w, ScalarMultiply(d, k))
  {
    OrthonormalDecomposition(u, w);
    ShiftAlong(u, Normal(u), ns, nf, DotProduct(Normal(u), w));
    AlongVector(u, d, dist, mass, mo, ns, no, lambda, nf);
  }

  /** The impulse equation written with the normal speeds n1 and n2, given
      the dot products of the offset with both velocities. */
  lemma ImpulseInNormalSpeeds(a: Body, b: Body, dist: real, n1: real, n2: real)
    requires Bounceable(a, b)
    requires DotProduct(Offset(a, b), a.v) == dist * n1 && DotProduct(Offset(a, b), b.v) == dist * n2
    ensures Impulse(a, b) * (((a.mass as real) + (b.mass as real)) * MagnitudeSquared(Offset(a, b)))
         == 2.0 * (dist * n2 - dist * n1)
    ensures (-Impulse(a, b)) * (((b.mass as real) + (a.mass as real)) * MagnitudeSquared(Offset(a, b)))
         == 2.0 * (dist * n1 - dist * n2)
  {
    var d := Offset(a, b);
    ImpulseEquation(a, b);
    DotSubtract(d, b.v, a.v);
    ImpulseScalar(Impulse(a, b), TotalMass(a, b), a.mass as real, b.mass as real, MagnitudeSquared(d),
                  DotProduct(d, a.v), DotProduct(d, b.v), n1, n2, dist);
  }

  /** The same, with the normal speeds taken along u, where dist u is the offset. */
  lemma ImpulseAlongUnit(a: Body, b: Body, dist: real, u: Vec, n1: real, n2: real)
    requires Bounceable(a, b) && ScalarMultiply(u, dist) == Offset(a, b)
    requires n1 == DotProduct(u, a.v) && n2 == DotProduct(u, b.v)
    ensures Impulse(a, b) * (((a.mass as real) + (b.mass as real)) * MagnitudeSquared(Offset(a, b)))
         == 2.0 * (dist * n2 - dist * n1)
    ensures (-Impulse(a, b)) * (((b.mass as real) + (a.mass as real)) * MagnitudeSquared(Offset(a, b)))
         == 2.0 * (dist * n1 - dist * n2)
  {
    ScaledDot(u, dist, Offset(a, b), a.v);
    ScaledDot(u, dist, Offset(a, b), b.v);
    ImpulseInNormalSpeeds(a, b, dist, n1, n2);
  }

  /** The offset d = dist u has dist times u's dot product with any vector. */
  lemma ScaledDot(u: Vec, dist: real, d: Vec, w: Vec)
    requires ScalarMultiply(u, dist) == d
    ensures DotProduct(d, w) == dist * DotProduct(u, w)
  {
    DotProductScales(u, dist, w);
  }

  lemma ImpulseScalar(lambda: real, t: real, m1: real, m2: real, q: real,
                      e1: real, e2: real, n1: real, n2: real, dist: real)
    requires t == m1 + m2 && lambda * (t * q) == 2.0 * (e2 - e1)
    requires e1 == dist * n1 && e2 == dist * n2
    ensures lambda * ((m1 + m2) * q) == 2.0 * (dist * n2 - dist * n1)
    ensures (-lambda) * ((m2 + m1) * q) == 2.0 * (dist * n1 - dist * n2)
  {
  }

  /** The velocity change along u in the literal form equals the change
      along the offset d = dist u in the square-root-free form. */
  lemma AlongVector(u: Vec, d: Vec, dist: real, mass: real, mo: real, ns: real, no: real, lambda: real, nf: real)
    requires dist > 0.0 && mass != 0.0
    requires ScalarMultiply(u, dist) == d && MagnitudeSquared(d) == Sq(dist)
    requires lambda * (mass * MagnitudeSquared(d)) == 2.0 * (dist * no - dist * ns)
    requires (nf - ns) * mass == 2.0 * mo * (no - ns)
    ensures ScalarMultiply(u, nf - ns) == ScalarMultiply(d, mo * lambda)
  {
    AlongScalar(u.x, d.x, dist, MagnitudeSquared(d), mass, mo, ns, no, lambda, nf);
    AlongScalar(u.y, d.y, dist, MagnitudeSquared(d), mass, mo, ns, no, lambda, nf);
  }

  /** Moving from normal speed n to n' along u adds (n' - n) u. */
  lemma ShiftAlong(u: Vec, c: Vec, n: real, n': real, t: real)
    ensures Add(ScalarMultiply(u, n'), ScalarMultiply(c, t))
         == Add(Add(ScalarMultiply(u, n), ScalarMultiply(c, t)), ScalarMultiply(u, n' - n))
  {
  }

  /** The change of normal speed in the one-dimensional collision. */
  lemma FinalSpeedGain(m: real, n: real, mo: real, no: real)
    requires m + mo != 0.0
    ensures (FinalSpeed(m, n, mo, no) - n) * (m + mo) == 2.0 * mo * (no - n)
  {
  }

  /** One component of the change of velocity, in the literal form
      (along the unit normal) and in the square-root-free form (along the
      offset). */
  lemma AlongScalar(ux: real, dx: real, dist: real, q: real, mass: real, mo: real,
                    ns: real, no: real, lambda: real, nf: real)
    requires dist > 0.0 && mass != 0.0
    requires ux * dist == dx && q == Sq(dist)
    requires lambda * (mass * q) == 2.0 * (dist * no - dist * ns)
    requires (nf - ns) * mass == 2.0 * mo * (no - ns)
    ensures ux * (nf - ns) == dx * (mo * lambda)
  {
    assert Mul(lambda * mass * dist - 2.0 * (no - ns), dist) == 0.0;
    CancelFactor(lambda * mass * dist - 2.0 * (no - ns), dist);
    MulSign(mass, dist);
    assert Mul(ux * (nf - ns) - dx * (mo * lambda), mass * dist) == 0.0;
    CancelFactor(ux * (nf - ns) - dx * (mo * lambda), mass * dist);
  }

  /** The size of the field the bodies move in; its centre is the origin. */
  datatype Field = Field(width: real, height: real)

  /** The outcome of the wall rule: the body and the number of events. */
  datatype Reflection = Reflection(body: Body, events: nat)

  /** The wall test for one axis: the body reaches past the upper edge
      while moving up, or past the lower edge while moving down. Both
      comparisons are strict. */
  predicate HitsWall(p: real, size: int, half: real, v: real) {
    (p + size as real > half && v > 0.0) || (p + half - size as real < 0.0 && v < 0.0)
  }

  predicate HitsWallY(b: Body, f: Field) {
    HitsWall(b.y, b.size, f.height / 2.0, b.v.y)
  }

  predicate HitsWallX(b: Body, f: Field) {
    HitsWall(b.x, b.size, f.width / 2.0, b.v.x)
  }

  /**
    The wall rule (`computePossibleWallCollision`): each velocity component
    is negated, independently, when the body hits the wall on that axis,
    with one event per negated component. The body does not move, and its
    speed and kinetic energy are kept.
  */
  function WallCollision(b: Body, f: Field): (r: Reflection)
    ensures r.body == WithVelocity(b, r.body.v)
    ensures r.body.v.y == (if HitsWallY(b, f) then -b.v.y else b.v.y)
    ensures r.body.v.x == (if HitsWallX(b, f) then -b.v.x else b.v.x)
    ensures r.events == (if HitsWallY(b, f) then 1 else 0) + (if HitsWallX(b, f) then 1 else 0)
    ensures MagnitudeSquared(r.body.v) == MagnitudeSquared(b.v)
    ensures Energy(r.body) == Energy(b)
  {
    var (vy, ey) := if HitsWallY(b, f) then (-b.v.y, 1) else (b.v.y, 0);
    var (vx, ex) := if HitsWallX(b, f) then (-b.v.x, 1) else (b.v.x, 0);
    SquareOfNegation(b.v.x);
    SquareOfNegation(b.v.y);
    Reflection(WithVelocity(b, Vec(vx, vy)), ey + ex)
  }

  lemma SquareOfNegation(a: real)
    ensures Sq(-a) == Sq(a)
  {
  }

  /** A body straddles both walls of an axis when it reaches past both. */
  predicate Straddles(p: real, size: int, half: real) {
    p + size as real > half && p + half - size as real < 0.0
  }

  /** Applying the wall rule a second time, without moving, changes nothing
      unless the body straddles both walls of some axis. */
  lemma WallCollisionSettles(b: Body, f: Field)
    requires !Straddles(b.y, b.size, f.height / 2.0) && !Straddles(b.x, b.size, f.width / 2.0)
    ensures WallCollision(WallCollision(b, f).body, f) == Reflection(WallCollision(b, f).body, 0)
  {
  }

  /** Which guard the pair rule applies: the source's sign test
      `n1 < 0 && n2 > 0` (`Resolve`), or the relative-velocity test it
      evidently intends (`ResolveApproaching`). */
  datatype Guard = AsWritten | Corrected

  /**
    The pair rule under a chosen guard. Either way it raises at most one
    event; with no event nothing changes, and with one event the
    collision formula has been applied. Only the velocities can change.
  */
  function PairRule(g: Guard, a: Body, b: Body): (r: Collision)
    requires Resolvable(a, b)
    ensures r.events <= 1
    ensures r.events == 0 ==> r.first == a && r.second == b
    ensures r.events == 1 ==> Bounceable(a, b) && r == Bounce(a, b)
    ensures g == AsWritten ==> (r.events == 1 <==> Overlaps(a, b) && !Separating(a, b))
    ensures g == Corrected ==> (r.events == 1 <==> Overlaps(a, b) && Approaching(a, b))
    ensures r.first == WithVelocity(a, r.first.v) && r.second == WithVelocity(b, r.second.v)
  {
    match g
    case AsWritten => Resolve(a, b)
    case Corrected => ResolveApproaching(a, b)
  }

  /** Bodies that approach each other are not separating: wherever the
      corrected guard lets the formula apply, the guard as written does
      too, with the same outcome. */
  lemma GuardsAgree(a: Body, b: Body, g: Guard)
    requires Resolvable(a, b) && Overlaps(a, b) && Approaching(a, b)
    ensures !Separating(a, b)
    ensures PairRule(g, a, b) == Resolve(a, b) && Resolve(a, b).events == 1
  {
    var d := Offset(a, b);
    assert DotProduct(d, Subtract(b.v, a.v)) == DotProduct(d, b.v) - DotProduct(d, a.v);
  }

  /** The pair rule under each guard: as written it is `Resolve`; the
      corrected rule leaves bodies that do not approach alone. */
  lemma PairRuleCases(g: Guard, a: Body, b: Body)
    requires Resolvable(a, b)
    ensures g == AsWritten ==> PairRule(g, a, b) == Resolve(a, b)
    ensures g == Corrected && !Approaching(a, b) ==> PairRule(g, a, b) == Collision(a, b, 0)
  {
  }

  /** Under either guard the pair rule conserves momentum and kinetic energy. */
  lemma PairRuleConserves(g: Guard, a: Body, b: Body)
    requires Resolvable(a, b)
    ensures Add(Momentum(PairRule(g, a, b).first), Momentum(PairRule(g, a, b).second)) == Add(Momentum(a), Momentum(b))
    ensures Energy(PairRule(g, a, b).first) + Energy(PairRule(g, a, b).second) == Energy(a) + Energy(b)
  {
    match g
    case AsWritten => ResolveConserves(a, b);
    case Corrected => ResolveApproachingConserves(a, b);
  }

  /** Why the pair rule can refuse to run. */
  datatype EngineError = SameObject

  /** The outcome of the pair rule on a list: the updated list and the
      number of object-collision events. */
  datatype Updated = Updated(bodies: seq<Body>, events: nat)

  /**
    The pair rule on the bodies at positions `i` and `j` of a list.
    Handing it one body twice is an error (`IllegalArgumentException`)
    that changes nothing; otherwise the two bodies are replaced by the
    outcome of the rule and every other body is left alone.
  */
  function CollideAt(bs: seq<Body>, i: nat, j: nat, g: Guard): (r: Result<Updated, EngineError>)
    requires i < |bs| && j < |bs|
    requires i != j ==> Resolvable(bs[i], bs[j])
    ensures r.Failure? <==> i == j
    ensures r.Success? ==> |r.value.bodies| == |bs|
    ensures r.Success? ==> forall k :: 0 <= k < |bs| && k != i && k != j ==> r.value.bodies[k] == bs[k]
    ensures r.Success? ==> (&& r.value.bodies[i] == PairRule(g, bs[i], bs[j]).first
                            && r.value.bodies[j] == PairRule(g, bs[i], bs[j]).second
                            && r.value.events == PairRule(g, bs[i], bs[j]).events)
  {
    if i == j then
      Failure(SameObject)
    else
      var c := PairRule(g, bs[i], bs[j]);
      Success(Updated(bs[i := c.first][j := c.second], c.events))
  }

  /** The pair rule keeps the total momentum and the total kinetic energy
      of the whole list, and every body keeps its position, size, mass
      and fill. */
  lemma CollideAtConserves(bs: seq<Body>, i: nat, j: nat, g: Guard)
    requires i < |bs| && j < |bs| && i != j && Resolvable(bs[i], bs[j])
    ensures CollideAt(bs, i, j, g).Success?
    ensures MomentumTotal(CollideAt(bs, i, j, g).value.bodies) == MomentumTotal(bs)
    ensures EnergyTotal(CollideAt(bs, i, j, g).value.bodies) == EnergyTotal(bs)
    ensures forall k :: 0 <= k < |bs| ==>
              CollideAt(bs, i, j, g).value.bodies[k] == WithVelocity(bs[k], CollideAt(bs, i, j, g).value.bodies[k].v)
  {
    var c := PairRule(g, bs[i], bs[j]);
    PairRuleConserves(g, bs[i], bs[j]);
    PairUpdateConserves(bs, i, j, c.first, c.second);
  }

  lemma NegateQuotient(x: real, y: real)
    requires y != 0.0
    ensures 2.0 * -x / y == -(2.0 * x / y)
  {
  }

  lemma UndoAlong(v: Vec, d: Vec, k: real, k': real)
    requires k + k' == 0.0
    ensures Add(Add(v, ScalarMultiply(d, k)), ScalarMultiply(d, k')) == v
  {
  }

  lemma ScaleInverted(d: Vec, k: real)
    ensures ScalarMultiply(Invert(d), k) == ScalarMultiply(d, -k)
  {
  }

  /** The impulse solves lambda (m1 + m2) |offset|^2 = 2 offset . (v2 - v1). */
  lemma ImpulseEquation(a: Body, b: Body)
    requires Bounceable(a, b)
    ensures Impulse(a, b) * (TotalMass(a, b) * MagnitudeSquared(Offset(a, b)))
         == 2.0 * DotProduct(Offset(a, b), Subtract(b.v, a.v))
  {
    MulSign(TotalMass(a, b), MagnitudeSquared(Offset(a, b)));
  }

  lemma DotSubtract(d: Vec, v: Vec, w: Vec)
    ensures DotProduct(d, Subtract(v, w)) == DotProduct(d, v) - DotProduct(d, w)
  {
  }

  lemma DotAlongScaled(d: Vec, v: Vec, k: real)
    ensures DotProduct(d, Add(v, ScalarMultiply(d, k))) == DotProduct(d, v) + k * MagnitudeSquared(d)
  {
  }

  lemma ExpandAlong(v: Vec, d: Vec, k: real)
    ensures MagnitudeSquared(Add(v, ScalarMultiply(d, k)))
         == MagnitudeSquared(v) + 2.0 * k * DotProduct(d, v) + k * k * MagnitudeSquared(d)
  {
  }

  lemma ReversalScalar(m1: real, m2: real, t: real, lambda: real, k1: real, k2: real, q: real, d1: real, d2: real, e1: real, e2: real)
    requires t == m1 + m2 && lambda * (t * q) == 2.0 * (d2 - d1)
    requires k1 == m2 * lambda && k2 == -(m1 * lambda)
    requires e1 == d1 + k1 * q
    requires e2 == d2 + k2 * q
    ensures e2 - e1 == -(d2 - d1)
  {
  }

  lemma EnergyScalar(m1: real, m2: real, t: real, lambda: real, k1: real, k2: real, q: real,
                     a1: real, a2: real, b1: real, b2: real, e1: real, e2: real)
    requires t == m1 + m2 && lambda * (t * q) == 2.0 * (b2 - b1)
    requires k1 == m2 * lambda && k2 == -(m1 * lambda)
    requires e1 == a1 + 2.0 * k1 * b1 + k1 * k1 * q
    requires e2 == a2 + 2.0 * k2 * b2 + k2 * k2 * q
    ensures m1 * e1 + m2 * e2 == m1 * a1 + m2 * a2
  {
    assert m1 * m2 * lambda * (lambda * (t * q)) == m1 * m2 * lambda * (2.0 * (b2 - b1));
  }
}
