/**
  Sums over a list of bodies (`PhysicsUtility`): the total momentum the
  source computes, and the total kinetic energy the collision rules
  conserve.
*/
module PhysicsUtility {

  import opened Vectors
  import opened Things

  /** The sum of a per-body quantity over a list of bodies. */
  function Total(bs: seq<Body>, f: Body -> real): real {
    if |bs| == 0 then 0.0 else f(bs[0]) + Total(bs[1..], f)
  }

  function MomentumX(b: Body): real {
    Momentum(b).x
  }

  function MomentumY(b: Body): real {
    Momentum(b).y
  }

  /** The total momentum, sum of m_i v_i, component by component. */
  function MomentumTotal(bs: seq<Body>): Vec {
    Vec(Total(bs, MomentumX), Total(bs, MomentumY))
  }

  /** The total of m|v|^2 over the bodies. */
  function EnergyTotal(bs: seq<Body>): real {
    Total(bs, Energy)
  }

  /**
    `momentumSum`: starting from (0, 0), adds each body's momentum in
    list order. The bodies are only read.
  */
  method MomentumSum(bs: seq<Body>) returns (r: Vec)
    ensures r == MomentumTotal(bs)
    ensures |bs| == 0 ==> r == Zero
  {
    r := Vec(0.0, 0.0);
    for i := 0 to |bs|
      invariant r == MomentumTotal(bs[..i])
    {
      assert bs[..i + 1] == bs[..i] + [bs[i]];
      TotalAppend(bs[..i], [bs[i]], MomentumX);
      TotalAppend(bs[..i], [bs[i]], MomentumY);
      r := Add(r, Momentum(bs[i]));
    }
    assert bs[..|bs|] == bs;
  }

  /** A total over two lists joined is the sum of the two totals. */
  lemma {:induction false} TotalAppend(xs: seq<Body>, ys: seq<Body>, f: Body -> real)
    ensures Total(xs + ys, f) == Total(xs, f) + Total(ys, f)
  {
    if |xs| > 0 {
      assert (xs + ys)[1..] == xs[1..] + ys;
      TotalAppend(xs[1..], ys, f);
    } else {
      assert xs + ys == ys;
    }
  }

  /** Replacing one body changes a total by the difference of its terms. */
  lemma {:induction false} TotalUpdate(bs: seq<Body>, i: nat, b: Body, f: Body -> real)
    requires i < |bs|
    ensures Total(bs[i := b], f) == Total(bs, f) - f(bs[i]) + f(b)
  {
    if i > 0 {
      assert bs[i := b][1..] == bs[1..][i - 1 := b];
      TotalUpdate(bs[1..], i - 1, b, f);
    } else {
      assert bs[i := b][1..] == bs[1..];
    }
  }

  /** Replacing two distinct bodies by a pair with the same combined term
      keeps a total. */
  lemma TotalPairUpdate(bs: seq<Body>, i: nat, j: nat, x: Body, y: Body, f: Body -> real)
    requires i < |bs| && j < |bs| && i != j
    requires f(x) + f(y) == f(bs[i]) + f(bs[j])
    ensures Total(bs[i := x][j := y], f) == Total(bs, f)
  {
    TotalUpdate(bs, i, x, f);
    TotalUpdate(bs[i := x], j, y, f);
  }

  /** The total momentum of two lists joined is the sum of their totals,
      so the order of the arguments does not matter. */
  lemma MomentumTotalAppend(xs: seq<Body>, ys: seq<Body>)
    ensures MomentumTotal(xs + ys) == Add(MomentumTotal(xs), MomentumTotal(ys))
    ensures MomentumTotal(xs + ys) == MomentumTotal(ys + xs)
  {
    TotalAppend(xs, ys, MomentumX);
    TotalAppend(xs, ys, MomentumY);
    TotalAppend(ys, xs, MomentumX);
    TotalAppend(ys, xs, MomentumY);
  }

  /** Replacing two distinct bodies by a pair with the same combined
      momentum and energy keeps the totals. */
  lemma PairUpdateConserves(bs: seq<Body>, i: nat, j: nat, x: Body, y: Body)
    requires i < |bs| && j < |bs| && i != j
    requires Add(Momentum(x), Momentum(y)) == Add(Momentum(bs[i]), Momentum(bs[j]))
    requires Energy(x) + Energy(y) == Energy(bs[i]) + Energy(bs[j])
    ensures MomentumTotal(bs[i := x][j := y]) == MomentumTotal(bs)
    ensures EnergyTotal(bs[i := x][j := y]) == EnergyTotal(bs)
  {
    TotalPairUpdate(bs, i, j, x, y, MomentumX);
    TotalPairUpdate(bs, i, j, x, y, MomentumY);
    TotalPairUpdate(bs, i, j, x, y, Energy);
  }

  /** Replacing one body by one with the same energy keeps the total energy. */
  lemma UpdateKeepsEnergy(bs: seq<Body>, i: nat, b: Body)
    requires i < |bs| && Energy(b) == Energy(bs[i])
    ensures EnergyTotal(bs[i := b]) == EnergyTotal(bs)
  {
    TotalUpdate(bs, i, b, Energy);
  }

  /** Replacing one body by one with the same momentum keeps the total momentum. */
  lemma UpdateKeepsMomentum(bs: seq<Body>, i: nat, b: Body)
    requires i < |bs| && Momentum(b) == Momentum(bs[i])
    ensures MomentumTotal(bs[i := b]) == MomentumTotal(bs)
  {
    TotalUpdate(bs, i, b, MomentumX);
    TotalUpdate(bs, i, b, MomentumY);
  }
}
