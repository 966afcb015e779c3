/**
  One body's step (`Thing.move`) and one animation tick of the whole list
  (the `animation` task of `Simulator`).

  A step first advances the mover's centre by its velocity, then walks the
  whole list in order: for every other body it applies the pair rule with
  the mover first, and after every element, the mover's own included, it
  applies the wall rule to the mover. A tick moves every body once, in list
  order, each seeing the velocities left by the bodies before it.

  Every operation takes the pair rule's guard `g` as a parameter: the
  source's behaviour is `AsWritten`; `Corrected` is the relative-velocity
  guard, kept to show what the sign test costs (`RearEndTick` against
  `RearEndTickCorrected`).
*/
module Motion {

  import opened Wrappers
  import opened Vectors
  import opened Things
  import opened CollisionEngine
  import opened PhysicsUtility

  /** Numbers of object-collision and wall-collision events. */
  datatype Events = Events(objectHits: nat, wallHits: nat)

  const NoEvents: Events := Events(0, 0)

  /** A list of bodies with the events raised while producing it. */
  datatype Progress = Progress(bodies: seq<Body>, events: Events)

  /** Every body keeps its position, size, mass and fill; only the
      velocities may differ. */
  predicate SameShape(bs: seq<Body>, cs: seq<Body>) {
    |cs| == |bs| && forall i :: 0 <= i < |bs| ==> cs[i] == WithVelocity(bs[i], cs[i].v)
  }

  /** Every body keeps its size, mass and fill (`size` and `mass` are final). */
  predicate SameBodies(bs: seq<Body>, cs: seq<Body>) {
    && |cs| == |bs|
    && forall i :: 0 <= i < |bs| ==> cs[i].size == bs[i].size && cs[i].mass == bs[i].mass && cs[i].fill == bs[i].fill
  }

  lemma SameShapeTransitive(as_: seq<Body>, bs: seq<Body>, cs: seq<Body>)
    requires SameShape(as_, bs) && SameShape(bs, cs)
    ensures SameShape(as_, cs)
  {
    forall i | 0 <= i < |as_|
      ensures cs[i] == WithVelocity(as_[i], cs[i].v)
    {
      assert bs[i] == WithVelocity(as_[i], bs[i].v);
    }
  }

  /** What one element of the walk needs: the pair rule must be defined
      for the mover `k` and element `j` when they differ. */
  predicate StepDefined(bs: seq<Body>, k: nat, j: nat) {
    k < |bs| && j < |bs| && (j != k ==> Resolvable(bs[k], bs[j]))
  }

  /**
    Element `j` of the walk in `move`, for the mover at position `k`: the
    pair rule on (k, j) unless `j` is the mover itself, then the wall rule
    on the mover. Only the mover and element `j` can change, and only in
    velocity; at most one object event and two wall events are raised.
  */
  function Step(bs: seq<Body>, k: nat, j: nat, f: Field, g: Guard): (r: Progress)
    requires StepDefined(bs, k, j)
    ensures SameShape(bs, r.bodies)
    ensures forall i :: 0 <= i < |bs| && i != k && i != j ==> r.bodies[i] == bs[i]
    ensures r.events.objectHits <= (if j == k then 0 else 1) && r.events.wallHits <= 2
  {
    var p := if j == k then Updated(bs, 0) else CollideAt(bs, k, j, g).value;
    var w := WallCollision(p.bodies[k], f);
    Progress(p.bodies[k := w.body], Events(p.events, w.events))
  }

  /** One element of the walk keeps the total kinetic energy, and the total
      momentum too when the wall rule did not fire. */
  lemma StepConserves(bs: seq<Body>, k: nat, j: nat, f: Field, g: Guard)
    requires StepDefined(bs, k, j)
    ensures EnergyTotal(Step(bs, k, j, f, g).bodies) == EnergyTotal(bs)
    ensures Step(bs, k, j, f, g).events.wallHits == 0 ==> MomentumTotal(Step(bs, k, j, f, g).bodies) == MomentumTotal(bs)
  {
    var p := if j == k then Updated(bs, 0) else CollideAt(bs, k, j, g).value;
    if j != k {
      CollideAtConserves(bs, k, j, g);
    }
    assert EnergyTotal(p.bodies) == EnergyTotal(bs) && MomentumTotal(p.bodies) == MomentumTotal(bs);
    var w := WallCollision(p.bodies[k], f);
    UpdateKeepsEnergy(p.bodies, k, w.body);
    if w.events == 0 {
      assert p.bodies[k := w.body] == p.bodies;
    }
  }

  /** The walk from element `j` on is defined: every pair rule it reaches
      is, with the velocities the earlier elements left. */
  predicate WalkDefined(bs: seq<Body>, k: nat, j: nat, f: Field, g: Guard)
    decreases |bs| - j
  {
    && k < |bs| && j <= |bs|
    && (j < |bs| ==> StepDefined(bs, k, j) && WalkDefined(Step(bs, k, j, f, g).bodies, k, j + 1, f, g))
  }

  /** The walk from element `j` to the end of the list, with the events it raises. */
  function Walk(bs: seq<Body>, k: nat, j: nat, f: Field, g: Guard): (r: Progress)
    requires WalkDefined(bs, k, j, f, g)
    ensures |r.bodies| == |bs|
    ensures r.events.objectHits <= |bs| - j - (if j <= k then 1 else 0)
    ensures r.events.wallHits <= 2 * (|bs| - j)
    decreases |bs| - j
  {
    if j == |bs| then
      Progress(bs, NoEvents)
    else
      var s := Step(bs, k, j, f, g);
      var rest := Walk(s.bodies, k, j + 1, f, g);
      Progress(rest.bodies, Events(s.events.objectHits + rest.events.objectHits, s.events.wallHits + rest.events.wallHits))
  }

  /** The walk changes velocities only. */
  lemma {:induction false} WalkKeepsShape(bs: seq<Body>, k: nat, j: nat, f: Field, g: Guard)
    requires WalkDefined(bs, k, j, f, g)
    ensures SameShape(bs, Walk(bs, k, j, f, g).bodies)
    decreases |bs| - j
  {
    if j < |bs| {
      var s := Step(bs, k, j, f, g);
      WalkKeepsShape(s.bodies, k, j + 1, f, g);
      SameShapeTransitive(bs, s.bodies, Walk(s.bodies, k, j + 1, f, g).bodies);
    }
  }

  /** The walk from element `j` is element `j` followed by the walk from
      `j + 1`: it ends with the later walk's list and raises the events of
      both. */
  lemma WalkSplit(bs: seq<Body>, k: nat, j: nat, f: Field, g: Guard)
    requires WalkDefined(bs, k, j, f, g) && j < |bs|
    ensures Walk(bs, k, j, f, g).bodies == Walk(Step(bs, k, j, f, g).bodies, k, j + 1, f, g).bodies
    ensures Walk(bs, k, j, f, g).events.objectHits == Step(bs, k, j, f, g).events.objectHits + Walk(Step(bs, k, j, f, g).bodies, k, j + 1, f, g).events.objectHits
    ensures Walk(bs, k, j, f, g).events.wallHits == Step(bs, k, j, f, g).events.wallHits + Walk(Step(bs, k, j, f, g).bodies, k, j + 1, f, g).events.wallHits
  {
  }

  /** The walk keeps the total kinetic energy, and the total momentum
      when no wall event occurred. */
  lemma {:induction false} WalkConserves(bs: seq<Body>, k: nat, j: nat, f: Field, g: Guard)
    requires WalkDefined(bs, k, j, f, g)
    ensures EnergyTotal(Walk(bs, k, j, f, g).bodies) == EnergyTotal(bs)
    ensures Walk(bs, k, j, f, g).events.wallHits == 0 ==> MomentumTotal(Walk(bs, k, j, f, g).bodies) == MomentumTotal(bs)
    decreases |bs| - j
  {
    if j < |bs| {
      StepConserves(bs, k, j, f, g);
      WalkConserves(Step(bs, k, j, f, g).bodies, k, j + 1, f, g);
    }
  }

  /** The list with the mover's centre advanced by its velocity. */
  function Displaced(bs: seq<Body>, k: nat): (cs: seq<Body>)
    requires k < |bs|
    ensures |cs| == |bs| && cs[k] == Displace(bs[k])
    ensures forall i :: 0 <= i < |bs| && i != k ==> cs[i] == bs[i]
  {
    bs[k := Displace(bs[k])]
  }

  /** Everything `move` does is defined for the body at position `k`. */
  predicate MoveDefined(bs: seq<Body>, k: nat, f: Field, g: Guard) {
    k < |bs| && WalkDefined(Displaced(bs, k), k, 0, f, g)
  }

  /**
    `move` for the body at position `k`, as a recursive definition: the
    mover's centre advances by its velocity exactly once, before any rule
    runs; every other centre stays put; no size, mass or fill changes.
    There is at most one object event per other body and at most two wall
    events per element.
  */
  function Moved(bs: seq<Body>, k: nat, f: Field, g: Guard): (r: Progress)
    requires MoveDefined(bs, k, f, g)
    ensures SameBodies(bs, r.bodies)
    ensures Position(r.bodies[k]) == Add(Position(bs[k]), bs[k].v)
    ensures forall i :: 0 <= i < |bs| && i != k ==> Position(r.bodies[i]) == Position(bs[i])
    ensures r.events.objectHits <= |bs| - 1 && r.events.wallHits <= 2 * |bs|
  {
    var r := Walk(Displaced(bs, k), k, 0, f, g);
    WalkKeepsShape(Displaced(bs, k), k, 0, f, g);
    assert r.bodies[k] == WithVelocity(Displace(bs[k]), r.bodies[k].v);
    r
  }

  /** `move` keeps the total kinetic energy, and the total momentum when
      no wall event occurred. */
  lemma MovedConserves(bs: seq<Body>, k: nat, f: Field, g: Guard)
    requires MoveDefined(bs, k, f, g)
    ensures EnergyTotal(Moved(bs, k, f, g).bodies) == EnergyTotal(bs)
    ensures Moved(bs, k, f, g).events.wallHits == 0 ==> MomentumTotal(Moved(bs, k, f, g).bodies) == MomentumTotal(bs)
  {
    DisplaceKeeps(bs[k]);
    UpdateKeepsEnergy(bs, k, Displace(bs[k]));
    UpdateKeepsMomentum(bs, k, Displace(bs[k]));
    WalkConserves(Displaced(bs, k), k, 0, f, g);
  }

  /** Advancing a centre changes neither momentum nor kinetic energy. */
  lemma DisplaceKeeps(b: Body)
    ensures Energy(Displace(b)) == Energy(b) && Momentum(Displace(b)) == Momentum(b)
  {
    var d := Displace(b);
    assert d.v == b.v && d.mass == b.mass;
  }

  /**
    `move`, with a loop: advance the centre, then walk the list in order,
    with the pair rule under guard `g` for every other body and the wall
    rule after every element. With `g == AsWritten` this is the source's
    `move`.
  */
  method Move(bs: seq<Body>, k: nat, f: Field, g: Guard) returns (r: Progress)
    requires MoveDefined(bs, k, f, g)
    ensures r == Moved(bs, k, f, g)
  {
    r := WalkAll(Displaced(bs, k), k, f, g);
  }

  /** The loop in `move`: every element of the list in order, from the
      first to the last. */
  method WalkAll(bs: seq<Body>, k: nat, f: Field, g: Guard) returns (r: Progress)
    requires WalkDefined(bs, k, 0, f, g)
    ensures r == Walk(bs, k, 0, f, g)
  {
    var current := bs;
    var objectHits, wallHits := 0, 0;
    for j := 0 to |bs|
      invariant |current| == |bs| && WalkDefined(current, k, j, f, g)
      invariant Walk(bs, k, 0, f, g).bodies == Walk(current, k, j, f, g).bodies
      invariant Walk(bs, k, 0, f, g).events.objectHits == objectHits + Walk(current, k, j, f, g).events.objectHits
      invariant Walk(bs, k, 0, f, g).events.wallHits == wallHits + Walk(current, k, j, f, g).events.wallHits
    {
      var s := WalkElement(current, k, j, f, g);
      current, objectHits, wallHits := s.bodies, objectHits + s.events.objectHits, wallHits + s.events.wallHits;
    }
    r := Progress(current, Events(objectHits, wallHits));
  }

  /** One pass of the loop in `move`: the pair rule with element `j` unless
      it is the mover, then the wall rule on the mover. */
  method WalkElement(bs: seq<Body>, k: nat, j: nat, f: Field, g: Guard) returns (r: Progress)
    requires WalkDefined(bs, k, j, f, g) && j < |bs|
    ensures r == Step(bs, k, j, f, g) && WalkDefined(r.bodies, k, j + 1, f, g)
    ensures Walk(bs, k, j, f, g).bodies == Walk(r.bodies, k, j + 1, f, g).bodies
    ensures Walk(bs, k, j, f, g).events.objectHits == r.events.objectHits + Walk(r.bodies, k, j + 1, f, g).events.objectHits
    ensures Walk(bs, k, j, f, g).events.wallHits == r.events.wallHits + Walk(r.bodies, k, j + 1, f, g).events.wallHits
  {
    WalkSplit(bs, k, j, f, g);
    var p, hits := bs, 0;
    if j != k {
      var c := CollideAt(bs, k, j, g);
      p, hits := c.value.bodies, c.value.events;
    }
    StepUnfolded(bs, k, j, f, g, p, hits);
    var w := WallCollision(p[k], f);
    r := Progress(p[k := w.body], Events(hits, w.events));
  }

  /** Element `j` of the walk, spelled out: the pair rule's outcome `p`
      with `hits` object events, then the wall rule on the mover. */
  lemma StepUnfolded(bs: seq<Body>, k: nat, j: nat, f: Field, g: Guard, p: seq<Body>, hits: nat)
    requires StepDefined(bs, k, j)
    requires j == k ==> p == bs && hits == 0
    requires j != k ==> p == CollideAt(bs, k, j, g).value.bodies && hits == CollideAt(bs, k, j, g).value.events
    ensures |p| == |bs|
    ensures Step(bs, k, j, f, g) == Progress(p[k := WallCollision(p[k], f).body], Events(hits, WallCollision(p[k], f).events))
  {
  }

  /** Moving the bodies from position `k` on is defined, each seeing the
      list its predecessors left. */
  predicate TickDefinedFrom(bs: seq<Body>, k: nat, f: Field, g: Guard)
    decreases |bs| - k
  {
    k <= |bs| && (k < |bs| ==> MoveDefined(bs, k, f, g) && TickDefinedFrom(Moved(bs, k, f, g).bodies, k + 1, f, g))
  }

  /** The bodies from position `k` on move one after the other. The bodies
      before `k` have already moved, and are not displaced again. */
  function TickFrom(bs: seq<Body>, k: nat, f: Field, g: Guard): (r: Progress)
    requires TickDefinedFrom(bs, k, f, g)
    ensures SameBodies(bs, r.bodies)
    ensures forall i :: 0 <= i < k ==> Position(r.bodies[i]) == Position(bs[i])
    decreases |bs| - k
  {
    if k == |bs| then
      Progress(bs, NoEvents)
    else
      var m := Moved(bs, k, f, g);
      var rest := TickFrom(m.bodies, k + 1, f, g);
      Progress(rest.bodies, Events(m.events.objectHits + rest.events.objectHits, m.events.wallHits + rest.events.wallHits))
  }

  /** One animation tick: every body moves once, in list order, and keeps
      its size, mass and fill. */
  function Tick(bs: seq<Body>, f: Field, g: Guard): (r: Progress)
    requires TickDefinedFrom(bs, 0, f, g)
    ensures SameBodies(bs, r.bodies)
  {
    TickFrom(bs, 0, f, g)
  }

  /** A tick keeps the total kinetic energy, and the total momentum when
      no wall event occurred. */
  lemma {:induction false} TickConserves(bs: seq<Body>, k: nat, f: Field, g: Guard)
    requires TickDefinedFrom(bs, k, f, g)
    ensures EnergyTotal(TickFrom(bs, k, f, g).bodies) == EnergyTotal(bs)
    ensures TickFrom(bs, k, f, g).events.wallHits == 0 ==> MomentumTotal(TickFrom(bs, k, f, g).bodies) == MomentumTotal(bs)
    decreases |bs| - k
  {
    if k < |bs| {
      MovedConserves(bs, k, f, g);
      TickConserves(Moved(bs, k, f, g).bodies, k + 1, f, g);
    }
  }

  /** The velocity the body at position `i` has when its turn comes, in a
      tick that has already moved the bodies before `k`: the bodies between
      `k` and `i` move first, and their pair rules may change it. */
  function TurnVelocity(bs: seq<Body>, k: nat, f: Field, g: Guard, i: nat): Vec
    requires TickDefinedFrom(bs, k, f, g) && k <= i < |bs|
    decreases i - k
  {
    if i == k then bs[k].v else TurnVelocity(Moved(bs, k, f, g).bodies, k + 1, f, g, i)
  }

  /** Every body moves exactly once in a tick: its final centre is its
      starting centre plus the velocity it had when its turn came. */
  lemma {:induction false} TickMovesEachOnce(bs: seq<Body>, k: nat, f: Field, g: Guard, i: nat)
    requires TickDefinedFrom(bs, k, f, g) && k <= i < |bs|
    ensures Position(TickFrom(bs, k, f, g).bodies[i]) == Add(Position(bs[i]), TurnVelocity(bs, k, f, g, i))
    decreases i - k
  {
    if i > k {
      TickMovesEachOnce(Moved(bs, k, f, g).bodies, k + 1, f, g, i);
    }
  }

  /** An element of the walk that raises no event changes nothing. */
  lemma StepQuiet(bs: seq<Body>, k: nat, j: nat, f: Field, g: Guard)
    requires StepDefined(bs, k, j) && Step(bs, k, j, f, g).events == NoEvents
    ensures Step(bs, k, j, f, g).bodies == bs
  {
    var p := if j == k then Updated(bs, 0) else CollideAt(bs, k, j, g).value;
    assert p.bodies == bs;
    var w := WallCollision(p.bodies[k], f);
    assert w.body == p.bodies[k];
  }

  /** A walk that raises no event changes nothing. */
  lemma {:induction false} WalkQuiet(bs: seq<Body>, k: nat, j: nat, f: Field, g: Guard)
    requires WalkDefined(bs, k, j, f, g) && Walk(bs, k, j, f, g).events == NoEvents
    ensures Walk(bs, k, j, f, g).bodies == bs
    decreases |bs| - j
  {
    if j < |bs| {
      StepQuiet(bs, k, j, f, g);
      WalkQuiet(Step(bs, k, j, f, g).bodies, k, j + 1, f, g);
    }
  }

  /** The list with every body from position `k` on advanced by its own
      velocity. */
  function DisplacedFrom(bs: seq<Body>, k: nat): (cs: seq<Body>)
    ensures |cs| == |bs|
  {
    seq(|bs|, i requires 0 <= i < |bs| => if i < k then bs[i] else Displace(bs[i]))
  }

  /** A tick that raises no event advances every body that has yet to move
      by its own velocity, and changes nothing else. */
  lemma {:induction false} QuietTick(bs: seq<Body>, k: nat, f: Field, g: Guard)
    requires TickDefinedFrom(bs, k, f, g) && TickFrom(bs, k, f, g).events == NoEvents
    ensures TickFrom(bs, k, f, g).bodies == DisplacedFrom(bs, k)
    decreases |bs| - k
  {
    if k < |bs| {
      QuietSplit(bs, k, f, g);
      MovedQuiet(bs, k, f, g);
      QuietTick(Displaced(bs, k), k + 1, f, g);
      DisplacedFromStep(bs, k);
    } else {
      assert DisplacedFrom(bs, k) == bs;
    }
  }

  lemma DisplacedFromStep(bs: seq<Body>, k: nat)
    requires k < |bs|
    ensures DisplacedFrom(Displaced(bs, k), k + 1) == DisplacedFrom(bs, k)
  {
  }

  /** A tick from `k` without events is a `move` of body `k` without events
      followed by a tick from `k + 1` without events. */
  lemma QuietSplit(bs: seq<Body>, k: nat, f: Field, g: Guard)
    requires TickDefinedFrom(bs, k, f, g) && TickFrom(bs, k, f, g).events == NoEvents && k < |bs|
    ensures MoveDefined(bs, k, f, g) && Moved(bs, k, f, g).events == NoEvents
    ensures TickDefinedFrom(Moved(bs, k, f, g).bodies, k + 1, f, g)
    ensures TickFrom(Moved(bs, k, f, g).bodies, k + 1, f, g).events == NoEvents
    ensures TickFrom(bs, k, f, g).bodies == TickFrom(Moved(bs, k, f, g).bodies, k + 1, f, g).bodies
  {
  }

  /** A `move` that raises no event only advances the mover's centre. */
  lemma MovedQuiet(bs: seq<Body>, k: nat, f: Field, g: Guard)
    requires MoveDefined(bs, k, f, g) && Moved(bs, k, f, g).events == NoEvents
    ensures Moved(bs, k, f, g).bodies == Displaced(bs, k)
  {
    WalkQuiet(Displaced(bs, k), k, 0, f, g);
  }

  /** The mover's own element of the walk, away from the walls, changes
      nothing and raises no event. */
  lemma StepSelf(bs: seq<Body>, k: nat, f: Field, g: Guard)
    requires k < |bs| && !HitsWallX(bs[k], f) && !HitsWallY(bs[k], f)
    ensures StepDefined(bs, k, k) && Step(bs, k, k, f, g) == Progress(bs, NoEvents)
  {
    assert WallCollision(bs[k], f).body == bs[k];
  }

  /** Element `j` of the walk when the mover, after the pair rule, is away
      from the walls: the pair rule's outcome and its events, nothing more. */
  lemma StepPair(bs: seq<Body>, k: nat, j: nat, f: Field, g: Guard, c: Collision)
    requires k < |bs| && j < |bs| && j != k && Resolvable(bs[k], bs[j])
    requires c == PairRule(g, bs[k], bs[j])
    requires !HitsWallX(c.first, f) && !HitsWallY(c.first, f)
    ensures StepDefined(bs, k, j)
    ensures Step(bs, k, j, f, g) == Progress(bs[k := c.first][j := c.second], Events(c.events, 0))
  {
    var p := bs[k := c.first][j := c.second];
    assert p[k] == c.first;
    assert WallCollision(p[k], f).body == p[k];
  }

  /** A gas particle (radius 5, mass 1) at (x, y) moving along the x axis
      at `vx`. */
  predicate IsParticle(b: Body, y: real, x: real, vx: real) {
    b.x == x && b.y == y && b.size == 5 && b.mass == 1 && b.v == Vec(vx, 0.0)
  }

  /** A field large enough that the rear-end pair never reaches a wall. */
  const Wide: Field := Field(500.0, 500.0)

  /** The body is away from both walls of the field. */
  predicate Clear(b: Body, f: Field) {
    !HitsWallX(b, f) && !HitsWallY(b, f)
  }

  /** `move` of the first of two bodies that stays away from the walls: it
      is displaced, its own element changes nothing, and the pair rule
      with the second body gives the outcome. */
  lemma MoveFirstOfTwo(bs: seq<Body>, f: Field, g: Guard, c: Collision)
    requires |bs| == 2 && Resolvable(Displace(bs[0]), bs[1])
    requires c == PairRule(g, Displace(bs[0]), bs[1])
    requires Clear(Displace(bs[0]), f) && Clear(c.first, f)
    ensures MoveDefined(bs, 0, f, g)
    ensures Moved(bs, 0, f, g) == Progress([c.first, c.second], Events(c.events, 0))
  {
    var d := Displaced(bs, 0);
    StepSelf(d, 0, f, g);
    StepPair(d, 0, 1, f, g, c);
    var s := d[0 := c.first][1 := c.second];
    assert s == [c.first, c.second];
    assert WalkDefined(s, 0, 2, f, g) && Walk(s, 0, 2, f, g) == Progress(s, NoEvents);
    assert WalkDefined(d, 0, 1, f, g) && Walk(d, 0, 1, f, g) == Progress(s, Events(c.events, 0));
    assert WalkDefined(d, 0, 0, f, g) && Walk(d, 0, 0, f, g) == Progress(s, Events(c.events, 0));
  }

  /** `move` of the second of two bodies that stays away from the walls:
      it is displaced, the pair rule with the first body (the mover first)
      gives the outcome, and its own element changes nothing. */
  lemma MoveSecondOfTwo(bs: seq<Body>, f: Field, g: Guard, c: Collision)
    requires |bs| == 2 && Resolvable(Displace(bs[1]), bs[0])
    requires c == PairRule(g, Displace(bs[1]), bs[0])
    requires Clear(c.first, f)
    ensures MoveDefined(bs, 1, f, g)
    ensures Moved(bs, 1, f, g) == Progress([c.second, c.first], Events(c.events, 0))
  {
    var d := Displaced(bs, 1);
    StepPair(d, 1, 0, f, g, c);
    var s := d[1 := c.first][0 := c.second];
    assert s == [c.second, c.first];
    StepSelf(s, 1, f, g);
    assert WalkDefined(s, 1, 2, f, g) && Walk(s, 1, 2, f, g) == Progress(s, NoEvents);
    assert WalkDefined(s, 1, 1, f, g) && Walk(s, 1, 1, f, g) == Progress(s, NoEvents);
    assert WalkDefined(d, 1, 0, f, g) && Walk(d, 1, 0, f, g) == Progress(s, Events(c.events, 0));
  }

  /** A tick of two bodies is the first body's `move` followed by the
      second's, with the events of both. */
  lemma TickOfTwo(bs: seq<Body>, f: Field, g: Guard, m: Progress, n: Progress)
    requires |bs| == 2 && MoveDefined(bs, 0, f, g) && m == Moved(bs, 0, f, g)
    requires MoveDefined(m.bodies, 1, f, g) && n == Moved(m.bodies, 1, f, g)
    ensures TickDefinedFrom(bs, 0, f, g)
    ensures Tick(bs, f, g) == Progress(n.bodies, Events(m.events.objectHits + n.events.objectHits, m.events.wallHits + n.events.wallHits))
  {
    assert TickDefinedFrom(n.bodies, 2, f, g) && TickFrom(n.bodies, 2, f, g) == Progress(n.bodies, NoEvents);
    assert TickDefinedFrom(m.bodies, 1, f, g) && TickFrom(m.bodies, 1, f, g) == Progress(n.bodies, n.events);
  }

  /** The first particle, displaced to 3, against the second at 10: under
      either guard they overlap and approach, and the rule exchanges their
      velocities. */
  lemma RearEndFirstPair(a: Body, b: Body, g: Guard, y: real)
    requires IsParticle(a, y, 3.0, 3.0) && IsParticle(b, y, 10.0, 1.0)
    ensures Resolvable(a, b) && PairRule(g, a, b).events == 1
    ensures IsParticle(PairRule(g, a, b).first, y, 3.0, 1.0) && IsParticle(PairRule(g, a, b).second, y, 10.0, 3.0)
  {
    RearEndFirstBounce(a, b);
    RearEndFirstApproach(a, b, y);
    GuardsAgree(a, b, g);
  }

  lemma RearEndFirstApproach(a: Body, b: Body, y: real)
    requires IsParticle(a, y, 3.0, 3.0) && IsParticle(b, y, 10.0, 1.0)
    ensures Approaching(a, b)
  {
    assert Offset(a, b) == Vec(7.0, 0.0);
  }

  /** The second particle, displaced to 13 with its new velocity 3, against
      the first at 3 moving at 1: the guard as written sees no separation
      and exchanges the velocities back. */
  lemma RearEndSecondPair(b: Body, a: Body, y: real)
    requires IsParticle(b, y, 13.0, 3.0) && IsParticle(a, y, 3.0, 1.0)
    ensures Resolvable(b, a) && PairRule(AsWritten, b, a).events == 1
    ensures IsParticle(PairRule(AsWritten, b, a).first, y, 13.0, 1.0) && IsParticle(PairRule(AsWritten, b, a).second, y, 3.0, 3.0)
  {
    RearEndSecondBounce(b, a);
    PairRuleCases(AsWritten, b, a);
  }

  /** The same pair under the corrected guard: the bodies move apart, and
      the rule leaves them alone. */
  lemma RearEndSecondIgnored(b: Body, a: Body, y: real)
    requires IsParticle(b, y, 13.0, 3.0) && IsParticle(a, y, 3.0, 1.0)
    ensures Resolvable(b, a) && PairRule(Corrected, b, a) == Collision(b, a, 0)
  {
    RearEndSecondBounce(b, a);
    RearEndSecondRecedes(b, a, y);
    PairRuleCases(Corrected, b, a);
  }

  lemma RearEndSecondRecedes(b: Body, a: Body, y: real)
    requires IsParticle(b, y, 13.0, 3.0) && IsParticle(a, y, 3.0, 1.0)
    ensures !Approaching(b, a)
  {
    RearEndSecondOffset(b, a, y);
    RecedingAlongAxis(b, a);
  }

  lemma RearEndSecondOffset(b: Body, a: Body, y: real)
    requires IsParticle(b, y, 13.0, 3.0) && IsParticle(a, y, 3.0, 1.0)
    ensures Offset(b, a) == Vec(-10.0, 0.0)
  {
  }

  lemma RecedingAlongAxis(b: Body, a: Body)
    requires Offset(b, a) == Vec(-10.0, 0.0) && b.v == Vec(3.0, 0.0) && a.v == Vec(1.0, 0.0)
    ensures !Approaching(b, a)
  {
  }

  /**
    A tick of two bodies that stay away from the walls: the first body is
    displaced and meets the second under the pair rule (`c`), then the
    second, with its new velocity, is displaced and meets the first again,
    itself as the mover (`c'`). The tick raises the events of both.
  */
  lemma TickOfTwoBodies(bs: seq<Body>, f: Field, g: Guard, c: Collision, c': Collision)
    requires |bs| == 2 && Resolvable(Displace(bs[0]), bs[1])
    requires c == PairRule(g, Displace(bs[0]), bs[1])
    requires Clear(Displace(bs[0]), f) && Clear(c.first, f)
    requires Resolvable(Displace(c.second), c.first)
    requires c' == PairRule(g, Displace(c.second), c.first)
    requires Clear(c'.first, f)
    ensures TickDefinedFrom(bs, 0, f, g)
    ensures Tick(bs, f, g) == Progress([c'.second, c'.first], Events(c.events + c'.events, 0))
  {
    MoveFirstOfTwo(bs, f, g, c);
    var m := Moved(bs, 0, f, g);
    MoveSecondOfTwo(m.bodies, f, g, c');
    TickOfTwo(bs, f, g, m, Moved(m.bodies, 1, f, g));
  }

  /** The two pair rules of a tick of the rear-end pair, each body
      displaced by the velocity it has when its turn comes. The first
      exchanges the velocities under either guard; the second exchanges
      them back under the guard as written and leaves them alone under the
      corrected guard. Neither body reaches a wall. */
  lemma RearEndPairs(bs: seq<Body>, g: Guard, y: real)
    requires |bs| == 2 && IsParticle(bs[0], y, 0.0, 3.0) && IsParticle(bs[1], y, 10.0, 1.0)
    ensures Resolvable(Displace(bs[0]), bs[1])
    ensures var c := PairRule(g, Displace(bs[0]), bs[1]);
            && Clear(Displace(bs[0]), Wide) && Clear(c.first, Wide)
            && Resolvable(Displace(c.second), c.first)
            && var c' := PairRule(g, Displace(c.second), c.first);
               && Clear(c'.first, Wide)
               && (g == AsWritten ==> c'.second == bs[0].(x := 3.0) && c'.first == bs[1].(x := 13.0) && c.events + c'.events == 2)
               && (g == Corrected ==> c'.second == bs[0].(x := 3.0, v := bs[1].v) && c'.first == bs[1].(x := 13.0, v := bs[0].v) && c.events + c'.events == 1)
  {
    var d := Displace(bs[0]);
    RearEndFirstPair(d, bs[1], g, y);
    var c := PairRule(g, d, bs[1]);
    var e := Displace(c.second);
    if g == AsWritten {
      RearEndSecondPair(e, c.first, y);
    } else {
      RearEndSecondIgnored(e, c.first, y);
    }
  }

  /**
    A whole tick of the rear-end pair of `RearEndExample` with the guard
    as written: the first particle at the origin moving at 3, the second
    10 to its right moving at 1. The pair is resolved twice, once in each
    body's `move`: two events, and each particle ends with the velocity
    it started with, as if they had passed through each other.
  */
  lemma RearEndTick(bs: seq<Body>, y: real)
    requires |bs| == 2 && IsParticle(bs[0], y, 0.0, 3.0) && IsParticle(bs[1], y, 10.0, 1.0)
    ensures TickDefinedFrom(bs, 0, Wide, AsWritten)
    ensures Tick(bs, Wide, AsWritten) == Progress([bs[0].(x := 3.0), bs[1].(x := 13.0)], Events(2, 0))
  {
    RearEndPairs(bs, AsWritten, y);
    var c := PairRule(AsWritten, Displace(bs[0]), bs[1]);
    TickOfTwoBodies(bs, Wide, AsWritten, c, PairRule(AsWritten, Displace(c.second), c.first));
  }

  /** The same tick with the corrected guard: the pair is resolved once,
      with one event, and the velocities stay exchanged. */
  lemma RearEndTickCorrected(bs: seq<Body>, y: real)
    requires |bs| == 2 && IsParticle(bs[0], y, 0.0, 3.0) && IsParticle(bs[1], y, 10.0, 1.0)
    ensures TickDefinedFrom(bs, 0, Wide, Corrected)
    ensures Tick(bs, Wide, Corrected) == Progress([bs[0].(x := 3.0, v := bs[1].v), bs[1].(x := 13.0, v := bs[0].v)], Events(1, 0))
  {
    RearEndPairs(bs, Corrected, y);
    var c := PairRule(Corrected, Displace(bs[0]), bs[1]);
    TickOfTwoBodies(bs, Wide, Corrected, c, PairRule(Corrected, Displace(c.second), c.first));
  }

  /** The `animation` task: `move` on every body, in list order. */
  method Animate(bs: seq<Body>, f: Field, g: Guard) returns (r: Progress)
    requires TickDefinedFrom(bs, 0, f, g)
    ensures r == Tick(bs, f, g)
  {
    var current := bs;
    var objectHits, wallHits := 0, 0;
    for k := 0 to |bs|
      invariant |current| == |bs| && TickDefinedFrom(current, k, f, g)
      invariant Tick(bs, f, g).bodies == TickFrom(current, k, f, g).bodies
      invariant Tick(bs, f, g).events.objectHits == objectHits + TickFrom(current, k, f, g).events.objectHits
      invariant Tick(bs, f, g).events.wallHits == wallHits + TickFrom(current, k, f, g).events.wallHits
    {
      var m := Move(current, k, f, g);
      current, objectHits, wallHits := m.bodies, objectHits + m.events.objectHits, wallHits + m.events.wallHits;
    }
    r := Progress(current, Events(objectHits, wallHits));
  }
}
